/** How every armed route ends: by which facts, with which note, and for good. */
module RouterEndings {
  import opened Text
  import opened HostKeys
  import opened DeepLinks
  import opened RouterSpec
  import opened RouterProofs

  // ---------- the facts ----------

  /** The list stream faulted. */
  predicate Broken(view: HostView) {
    !view.listPending && view.listError
  }

  /** A complete census lacks the terminal. */
  predicate Absent(view: HostView, route: DeepLink)
    requires route.TargetsTerminal()
  {
    !view.listPending && !view.listError && view.authoritative && route.terminalId !in view.listed
  }

  /** The terminal is listed and its record is in. */
  predicate Composed(view: HostView, route: DeepLink)
    requires route.TargetsTerminal()
  {
    !view.listPending && !view.listError && route.terminalId in view.listed && route.terminalId in view.records
  }

  predicate Repoless(view: HostView, route: DeepLink)
    requires route.TargetsTerminal()
  {
    Composed(view, route) && route.CodeLink? && view.records[route.terminalId].NoRepo?
  }

  /** The link can be enacted: a file link only where there is a repository. */
  predicate Ready(view: HostView, route: DeepLink)
    requires route.TargetsTerminal()
  {
    Composed(view, route) && (route.CodeLink? ==> view.records[route.terminalId].Repo?)
  }

  predicate Decided(view: HostView, route: DeepLink)
    requires route.TargetsTerminal()
  {
    Broken(view) || Absent(view, route) || Repoless(view, route) || Ready(view, route)
  }

  predicate RepoStuck(view: HostView, route: DeepLink)
    requires route.TargetsTerminal()
  {
    route.terminalId in view.records && route.CodeLink? && view.records[route.terminalId].Unresolved?
  }

  /** The note is the armed route's own, on its entry, and the one these facts call for. */
  predicate IsVerdict(note: Note, a: Arm, entry: nat, view: HostView)
    requires a.route.TargetsTerminal()
  {
    note.Ends() && note.arm == a.id && note.entry == entry
    && (note.Enacted? <==> Ready(view, a.route) && !view.viewThrows)
    && (note.EnactThrew? <==> Ready(view, a.route) && view.viewThrows)
    && (note.Attempts() ==> note.route == a.route)
    && (note == Failed(a.id, entry, ListError) <==> Broken(view))
    && (note == Failed(a.id, entry, Gone) <==> Absent(view, a.route))
    && (note == Failed(a.id, entry, NotARepo) <==> Repoless(view, a.route))
  }

  /** The toast of a wait that ran out: it blames the git sensor, the daemon or the host. */
  predicate IsTimeout(note: Note, a: Arm, entry: nat, view: HostView)
    requires a.route.TargetsTerminal()
  {
    note.Failed? && note.arm == a.id && note.entry == entry
    && (note.fault == RepoNeverResolved <==> RepoStuck(view, a.route))
    && (note.fault == DaemonDown <==> !RepoStuck(view, a.route) && !view.authoritative)
    && (note.fault == Unreachable <==> !RepoStuck(view, a.route) && view.authoritative)
  }

  /** `t` is `s` with its route ended by this one note: stamped unless `enact` threw, its intent kept
      exactly when `enact` was reached. */
  ghost predicate EndsWith(s: Page, t: Page, note: Note) {
    t.log == s.log + [note] && t.pending.None?
    && t.intent == (if note.Attempts() then s.intent else None)
    && t.history == (if note.EnactThrew? then s.history else Stamp(s).history)
    && t.cur == s.cur && t.active == s.active && t.hosts == s.hosts
    && t.nextEntry == s.nextEntry && t.nextArm == s.nextArm
  }

  /** What the settle effect makes of an armed route: off its host it is dropped and its entry consumed
      without a word; on it, it waits until the facts decide, and then ends by the note they call for. */
  lemma SettlesByTheFacts(s: Page)
    requires ArmTargetsTerminal(s) && s.pending.Some?
    ensures var a := s.pending.value;
            var t := Settle(s);
            if EncodeHostKey(s.active) != a.route.host then t == Stamp(s.(pending := None, intent := None))
            else if !Decided(View(s), a.route) then t == s
            else |t.log| == |s.log| + 1 && IsVerdict(t.log[|s.log|], a, Here(s).id, View(s))
                 && EndsWith(s, t, t.log[|s.log|])
  {
  }

  lemma TimesOutByTheFacts(s: Page)
    requires ArmTargetsTerminal(s) && s.pending.Some?
    ensures var t := BackstopFires(s);
            |t.log| == |s.log| + 1 && IsTimeout(t.log[|s.log|], s.pending.value, Here(s).id, View(s))
            && EndsWith(s, t, t.log[|s.log|])
  {
  }

  // ---------- one step ----------

  /** The user moved on: a newer command, a reported traversal, another host, or another document. */
  predicate Supersedes(s: Page, step: Step)
    requires s.pending.Some? && s.pending.value.route.TargetsTerminal() && Enabled(s, step)
  {
    match step
    case Follow(_) => true
    case FollowAgain => false
    case Traverse(to) => s.history[to].hash != Here(s).hash
    case Outside(launch) => launch.LaunchHash?
    case SwitchHost(host) => EncodeHostKey(host) != s.pending.value.route.host
    case Reload(_, _) => true
    case WorldMoves(_) => false
    case Backstop => false
  }

  predicate Resolves(s: Page, step: Step)
    requires s.pending.Some? && s.pending.value.route.TargetsTerminal()
  {
    match step
    case WorldMoves(hosts) => Decided(hosts(s.active), s.pending.value.route)
    case Backstop => true
    case _ => false
  }

  ghost predicate NeverEnded(log: seq<Note>, arm: nat) {
    forall i :: 0 <= i < |log| && log[i].Ends() ==> log[i].arm != arm
  }

  /** A route that was armed, is no longer, and was never enacted or toasted. */
  ghost predicate Dead(s: Page, arm: nat) {
    arm < s.nextArm && NeverEnded(s.log, arm) && (s.pending.Some? ==> s.pending.value.id != arm)
  }

  /** The page says nothing of the route, which is dead, and keeps an intent only of a newer attempt. */
  ghost predicate Superseded(s: Page, t: Page, arm: nat) {
    s.log <= t.log && Dead(t, arm)
    && (t.pending.None? && t.intent.Some? ==> |t.log| > |s.log| && t.log[|t.log| - 1].Attempts())
  }

  /** An armed route ends at a step exactly when the step supersedes it or resolves it. Superseded, it
      ends in silence. Resolved, it ends in exactly one note of its own: the one the new facts call for,
      or the one the facts at its backstop call for. */
  lemma HowARouteEnds(parse: Parser, s: Page, step: Step)
    requires Sound(parse) && Inv(parse, s) && Enabled(s, step) && !SilentReplay(s, step)
    requires s.pending.Some?
    ensures var t := Next(parse, s, step);
            var a := s.pending.value;
            && s.log <= t.log
            && (t.pending != s.pending <==> Supersedes(s, step) || Resolves(s, step))
            && (Supersedes(s, step) ==> Superseded(s, t, a.id))
            && (Supersedes(s, step) && step.SwitchHost? ==>
                  t == Stamp(s.(active := step.host, pending := None, intent := None)))
            && (Resolves(s, step) ==>
                  |t.log| == |s.log| + 1
                  && (var note := t.log[|s.log|];
                      match step
                      case WorldMoves(hosts) =>
                        EndsWith(s.(hosts := hosts), t, note) && IsVerdict(note, a, Here(s).id, hosts(s.active))
                      case _ => EndsWith(s, t, note) && IsTimeout(note, a, Here(s).id, View(s))))
  {
    if Supersedes(s, step) {
      SupersededInSilence(parse, s, step);
    } else if step.WorldMoves? {
      SettlesByTheFacts(s.(hosts := step.hosts));
    } else if step.Backstop? {
      TimesOutByTheFacts(s);
    } else {
      NothingHappens(parse, s, step);
    }
  }

  /** A step that neither supersedes nor resolves leaves the route armed. */
  lemma NothingHappens(parse: Parser, s: Page, step: Step)
    requires Sound(parse) && Inv(parse, s) && Enabled(s, step) && s.pending.Some?
    requires !Supersedes(s, step) && !step.WorldMoves? && !step.Backstop?
    ensures Next(parse, s, step).pending == s.pending && s.log <= Next(parse, s, step).log
  {
    SettlesByTheFacts(Handle(parse, s, step));
    SettlesByTheFacts(s);
  }

  /** The handler of a superseding step leaves the route dead, and an intent only with a newer route. */
  ghost predicate Silenced(s: Page, t: Page, arm: nat) {
    s.log <= t.log && Dead(t, arm) && (t.pending.None? ==> t.intent.None?)
  }

  lemma NavigateSilences(s: Page, link: Parsed, arm: nat)
    requires Routable(link) && NeverEnded(s.log, arm) && arm < s.nextArm
    requires s.pending.Some? || s.intent.None?
    ensures Silenced(s, Navigate(s, link), arm)
  {
  }

  lemma DeliverSilences(parse: Parser, s: Page, launch: Launch, arm: nat)
    requires Sound(parse) && NeverEnded(s.log, arm) && arm < s.nextArm
    requires (s.pending.None? && s.intent.None?) || (s.pending.Some? && launch.LaunchHash?)
    ensures Silenced(s, Deliver(parse, s, launch), arm)
  {
    if launch.LaunchHash? {
      NavigateSilences(if launch.hash != "" then Replace(s, launch.hash) else s, parse(launch.hash), arm);
    }
  }

  lemma HandlerIsSilent(parse: Parser, s: Page, step: Step)
    requires Sound(parse) && Inv(parse, s) && Enabled(s, step)
    requires s.pending.Some? && Supersedes(s, step)
    ensures if step.SwitchHost? then Handle(parse, s, step) == s.(active := step.host)
            else Silenced(s, Handle(parse, s, step), s.pending.value.id)
    ensures NeverEnded(s.log, s.pending.value.id) && s.pending.value.id < s.nextArm
  {
    var arm := s.pending.value.id;
    match step
    case Follow(hash) => NavigateSilences(PushEntry(s, hash), parse(hash), arm);
    case FollowAgain =>
    case Traverse(to) =>
      if !s.history[to].routed {
        NavigateSilences(s.(cur := to), parse(s.history[to].hash), arm);
      }
    case Outside(launch) => DeliverSilences(parse, s, launch, arm);
    case SwitchHost(host) =>
    case WorldMoves(hosts) =>
    case Backstop =>
    case Reload(queued, world) =>
      var t := Unloaded(s, world);
      DeliverSilences(parse, t, queued, arm);
      NavigateSilences(t, parse(Here(t).hash), arm);
  }

  /** What the settle effect adds to a silenced route's page is a newer route's. */
  lemma SettleKeepsSilence(s: Page, h: Page, arm: nat)
    requires ArmTargetsTerminal(h) && Silenced(s, h, arm)
    ensures Superseded(s, Settle(h), arm)
  {
    SettleKeepsDead(h, arm);
    if h.pending.Some? {
      SettlesByTheFacts(h);
    }
  }

  lemma SwitchedIsSuperseded(s: Page, host: HostKey)
    requires ArmTargetsTerminal(s) && s.pending.Some? && s.pending.value.id < s.nextArm
    requires NeverEnded(s.log, s.pending.value.id) && EncodeHostKey(host) != s.pending.value.route.host
    ensures Superseded(s, Settle(s.(active := host)), s.pending.value.id)
  {
    SettlesByTheFacts(s.(active := host));
  }

  lemma SupersededInSilence(parse: Parser, s: Page, step: Step)
    requires Sound(parse) && Inv(parse, s) && Enabled(s, step)
    requires s.pending.Some? && Supersedes(s, step)
    ensures Superseded(s, Next(parse, s, step), s.pending.value.id)
  {
    HandlerIsSilent(parse, s, step);
    if step.SwitchHost? {
      SwitchedIsSuperseded(s, step.host);
    } else {
      SettleKeepsSilence(s, Handle(parse, s, step), s.pending.value.id);
    }
  }

  /** What a handler makes of the link it routes on page `p`. A terminal link is armed and nothing else
      happens; any other is resolved where it stands: it arms nothing and stamps its entry, a host link
      moves to its host, and only bad and settings links show something, once. */
  ghost predicate RoutedAs(p: Page, t: Page, link: Parsed)
    requires Routable(link)
  {
    t.cur == p.cur && t.hosts == p.hosts && t.nextEntry == p.nextEntry
    && if link.Link? && link.link.TargetsTerminal() then
         t.history == p.history && t.log == p.log && t.active == HostOf(link.link.host)
         && t.pending == Some(Arm(p.nextArm, link.link)) && t.intent == Some(link.link.terminalId)
         && t.nextArm == p.nextArm + 1
       else
         t.history == p.history[p.cur := Entry(Here(p).id, Here(p).hash, true)]
         && t.pending.None? && t.intent == (if p.pending.Some? then None else p.intent)
         && t.active == (if link.Link? && link.link.HostLink? then HostOf(link.link.host) else p.active)
         && t.log == p.log + (if link.Invalid? then [InvalidLinkToast]
                              else if link.Link? && link.link.SettingsLink? then [SettingsOpened] else [])
         && t.nextArm == p.nextArm
  }

  /** The link a step hands to be routed: a fresh hash's, an unconsumed entry's that a traversal or a
      load arrives at, or one from outside; a queued launch takes the place of the boot parse. */
  function Handed(parse: Parser, s: Page, step: Step): Option<Parsed>
    requires Enabled(s, step)
  {
    match step
    case Follow(hash) => Some(parse(hash))
    case Traverse(to) =>
      if s.history[to].hash != Here(s).hash && !s.history[to].routed then Some(parse(s.history[to].hash)) else None
    case Outside(LaunchHash(hash)) => Some(parse(hash))
    case Reload(LaunchHash(hash), _) => Some(parse(hash))
    case Reload(NoLaunch, _) => if Here(s).routed then None else Some(parse(Here(s).hash))
    case _ => None
  }

  /** Whatever way a link comes in, of whatever kind, it is routed, once, on the entry it came in on. */
  lemma EveryLinkIsRouted(parse: Parser, s: Page, step: Step)
    requires Sound(parse) && ArmTargetsTerminal(s) && Enabled(s, step) && Handed(parse, s, step).Some?
    ensures var link := Handed(parse, s, step).value;
            && Routable(link)
            && RoutedAs(Moved(s, step), Handle(parse, s, step), link)
            && (!(link.Link? && link.link.TargetsTerminal()) ==>
                  RoutedAs(Moved(s, step), Next(parse, s, step), link))
  {
    var link := Handed(parse, s, step).value;
    assert Routable(link) by {
      match step
      case Follow(hash) => assert Routable(parse(hash));
      case Traverse(to) => assert Routable(parse(s.history[to].hash));
      case Outside(launch) => assert Routable(parse(launch.hash));
      case Reload(queued, _) => assert Routable(parse(if queued.LaunchHash? then queued.hash else Here(s).hash));
      case _ =>
    }
    NavigateRoutes(Moved(s, step), link);
  }

  lemma NavigateRoutes(p: Page, link: Parsed)
    requires Routable(link)
    ensures RoutedAs(p, Navigate(p, link), link)
  {
  }

  /** A followed link that targets no terminal, settled. */
  lemma OtherLinksResolveAtOnce(parse: Parser, s: Page, hash: string)
    requires Sound(parse) && ArmTargetsTerminal(s) && hash != Here(s).hash
    requires parse(hash).Link? ==> !parse(hash).link.TargetsTerminal()
    ensures Routable(parse(hash))
    ensures var link, t := parse(hash), Next(parse, s, Follow(hash));
            && t.pending.None? && Here(t) == Entry(s.nextEntry, hash, true)
            && t.active == (if link.Link? && link.link.HostLink? then HostOf(link.link.host) else s.active)
            && t.log == s.log + (if link.Invalid? then [InvalidLinkToast]
                                 else if link.Link? && link.link.SettingsLink? then [SettingsOpened] else [])
            && t.intent == (if s.pending.Some? then None else s.intent)
  {
    EveryLinkIsRouted(parse, s, Follow(hash));
  }

  /** And what hands no link routes none: a consumed entry that is loaded or returned to, a launch
      without a URL, a move of the host or the world. Only a malformed launch shows something, and only a
      reported traversal disarms. */
  lemma NothingElseIsRouted(parse: Parser, s: Page, step: Step)
    requires Sound(parse) && ArmTargetsTerminal(s) && Enabled(s, step) && Handed(parse, s, step).None?
    requires step.Backstop? ==> s.pending.None?
    ensures var p, t := Moved(s, step), Handle(parse, s, step);
            && t.history == p.history && t.cur == p.cur && t.active == p.active && t.hosts == p.hosts
            && t.nextEntry == p.nextEntry && t.nextArm == p.nextArm
            && t.log == p.log + (if (step.Outside? && step.launch.MalformedLaunch?)
                                    || (step.Reload? && step.queued.MalformedLaunch?) then [BadLaunchToast] else [])
            && (if step.Traverse? && s.history[step.to].hash != Here(s).hash
                then t.pending.None? && t.intent == (if s.pending.Some? then None else s.intent)
                else t.pending == p.pending && t.intent == p.intent)
  {
  }

  /** A launch without a hash of its own leaves the page to itself, but for the toast of a malformed one. */
  lemma BareLaunchesChangeNothing(parse: Parser, s: Page, launch: Launch)
    requires Sound(parse) && Inv(parse, s) && !launch.LaunchHash?
    ensures Next(parse, s, Outside(launch)) == if launch.MalformedLaunch? then Say(s, BadLaunchToast) else s
  {
    if s.pending.Some? {
      SettlesByTheFacts(s);
      SettlesByTheFacts(Deliver(parse, s, launch));
    }
  }

  // ---------- dead is dead ----------

  lemma SettleKeepsDead(s: Page, arm: nat)
    requires ArmTargetsTerminal(s) && Dead(s, arm)
    ensures Dead(Settle(s), arm)
  {
    if s.pending.Some? {
      SettlesByTheFacts(s);
    }
  }

  lemma NavigateKeepsDead(s: Page, link: Parsed, arm: nat)
    requires Routable(link) && Dead(s, arm)
    ensures Dead(Navigate(s, link), arm)
  {
  }

  lemma DeliverKeepsDead(parse: Parser, s: Page, launch: Launch, arm: nat)
    requires Sound(parse) && Dead(s, arm)
    ensures Dead(Deliver(parse, s, launch), arm)
  {
    if launch.LaunchHash? {
      NavigateKeepsDead(if launch.hash != "" then Replace(s, launch.hash) else s, parse(launch.hash), arm);
    }
  }

  lemma HandleKeepsDead(parse: Parser, s: Page, step: Step, arm: nat)
    requires Sound(parse) && Enabled(s, step) && ArmTargetsTerminal(s) && Dead(s, arm)
    ensures Dead(Handle(parse, s, step), arm)
  {
    match step
    case Follow(hash) => NavigateKeepsDead(PushEntry(s, hash), parse(hash), arm);
    case FollowAgain =>
    case Traverse(to) => NavigateKeepsDead(s.(cur := to), parse(s.history[to].hash), arm);
    case Outside(launch) => DeliverKeepsDead(parse, s, launch, arm);
    case SwitchHost(host) =>
    case WorldMoves(hosts) =>
    case Backstop =>
    case Reload(queued, world) =>
      var t := Unloaded(s, world);
      DeliverKeepsDead(parse, t, queued, arm);
      NavigateKeepsDead(t, parse(Here(t).hash), arm);
  }

  /** No step, not even an unreported traversal, brings a superseded route back. */
  lemma DeadStaysDead(parse: Parser, s: Page, step: Step, arm: nat)
    requires Sound(parse) && Enabled(s, step) && ArmTargetsTerminal(s) && Dead(s, arm)
    ensures Dead(Next(parse, s, step), arm)
  {
    HandleKeepsDead(parse, s, step, arm);
    SettleKeepsDead(Handle(parse, s, step), arm);
  }

  lemma {:induction false} DeadForGood(parse: Parser, s: Page, steps: seq<Step>, arm: nat)
    requires Sound(parse) && ArmTargetsTerminal(s) && Runs(parse, s, steps) && Dead(s, arm)
    ensures Dead(After(parse, s, steps), arm)
    decreases |steps|
  {
    if steps != [] {
      DeadStaysDead(parse, s, steps[0], arm);
      DeadForGood(parse, Next(parse, s, steps[0]), steps[1..], arm);
    }
  }

  lemma DeliverOnlyAdds(parse: Parser, s: Page, launch: Launch)
    requires Sound(parse)
    ensures s.log <= Deliver(parse, s, launch).log
  {
  }

  lemma HandleOnlyAdds(parse: Parser, s: Page, step: Step)
    requires Sound(parse) && Enabled(s, step) && ArmTargetsTerminal(s)
    ensures s.log <= Handle(parse, s, step).log
  {
    match step
    case Outside(launch) => DeliverOnlyAdds(parse, s, launch);
    case Reload(queued, world) => DeliverOnlyAdds(parse, Unloaded(s, world), queued);
    case _ =>
  }

  lemma SettleOnlyAdds(s: Page)
    requires ArmTargetsTerminal(s)
    ensures s.log <= Settle(s).log && Settle(s).hosts == s.hosts
  {
    if s.pending.Some? {
      SettlesByTheFacts(s);
    }
  }

  lemma {:induction false} LogOnlyGrows(parse: Parser, s: Page, steps: seq<Step>)
    requires Sound(parse) && ArmTargetsTerminal(s) && Runs(parse, s, steps)
    ensures s.log <= After(parse, s, steps).log
    decreases |steps|
  {
    if steps != [] {
      HandleOnlyAdds(parse, s, steps[0]);
      SettleOnlyAdds(Handle(parse, s, steps[0]));
      LogOnlyGrows(parse, Next(parse, s, steps[0]), steps[1..]);
    }
  }

  predicate Armed(s: Page, arm: nat) {
    s.pending.Some? && s.pending.value.id == arm
  }

  /** The log holds exactly one ending of the route, at `i`. */
  ghost predicate EndedAt(log: seq<Note>, arm: nat, i: nat) {
    i < |log| && log[i].Ends() && log[i].arm == arm
    && forall j :: 0 <= j < |log| && log[j].Ends() && log[j].arm == arm ==> j == i
  }

  /** No route has ended twice, the armed one has not ended, and a new one will have a new id. */
  ghost predicate Fated(s: Page) {
    ArmTargetsTerminal(s) && EndedOnce(s) && (s.pending.Some? ==> s.pending.value.id < s.nextArm)
  }

  lemma NavigateKeepsFated(s: Page, link: Parsed)
    requires Routable(link) && Fated(s)
    ensures Fated(Navigate(s, link))
  {
  }

  lemma DeliverKeepsFated(parse: Parser, s: Page, launch: Launch)
    requires Sound(parse) && Fated(s)
    ensures Fated(Deliver(parse, s, launch))
  {
    if launch.LaunchHash? {
      NavigateKeepsFated(if launch.hash != "" then Replace(s, launch.hash) else s, parse(launch.hash));
    }
  }

  lemma HandleKeepsFated(parse: Parser, s: Page, step: Step)
    requires Sound(parse) && Enabled(s, step) && Fated(s)
    ensures Fated(Handle(parse, s, step))
  {
    match step
    case Follow(hash) => NavigateKeepsFated(PushEntry(s, hash), parse(hash));
    case FollowAgain =>
    case Traverse(to) => NavigateKeepsFated(s.(cur := to), parse(s.history[to].hash));
    case Outside(launch) => DeliverKeepsFated(parse, s, launch);
    case SwitchHost(host) =>
    case WorldMoves(hosts) =>
    case Backstop =>
    case Reload(queued, world) =>
      var t := Unloaded(s, world);
      DeliverKeepsFated(parse, t, queued);
      NavigateKeepsFated(t, parse(Here(t).hash));
  }

  lemma SettleKeepsFated(s: Page)
    requires Fated(s)
    ensures Fated(Settle(s))
  {
    if s.pending.Some? {
      SettlesByTheFacts(s);
    }
  }

  lemma {:induction false} RunKeepsFated(parse: Parser, s: Page, steps: seq<Step>)
    requires Sound(parse) && Fated(s) && Runs(parse, s, steps)
    ensures Fated(After(parse, s, steps))
    decreases |steps|
  {
    if steps != [] {
      HandleKeepsFated(parse, s, steps[0]);
      SettleKeepsFated(Handle(parse, s, steps[0]));
      RunKeepsFated(parse, Next(parse, s, steps[0]), steps[1..]);
    }
  }

  /** Over any run, unreported traversals included, each armed route is in exactly one of three ways:
      armed still, ended by exactly one note, or superseded without one; and the last two are for good,
      however the run goes on. */
  lemma OneFateEach(parse: Parser, s: Page, steps: seq<Step>, more: seq<Step>, arm: nat)
    requires Sound(parse) && Start(s) && Runs(parse, s, steps)
    requires Runs(parse, After(parse, s, steps), more) && arm < After(parse, s, steps).nextArm
    ensures var t := After(parse, s, steps);
            var u := After(parse, t, more);
            && (Armed(t, arm) || Dead(t, arm) || exists i :: EndedAt(t.log, arm, i))
            && !(Armed(t, arm) && Dead(t, arm))
            && (forall i :: EndedAt(t.log, arm, i) ==> !Armed(t, arm) && !Dead(t, arm))
            && (Dead(t, arm) ==> Dead(u, arm))
            && (forall i :: EndedAt(t.log, arm, i) ==> t.log <= u.log && EndedAt(u.log, arm, i))
  {
    var t := After(parse, s, steps);
    RunKeepsFated(parse, s, steps);
    RunKeepsFated(parse, t, more);
    LogOnlyGrows(parse, t, more);
    if !Armed(t, arm) && !Dead(t, arm) {
      var i :| 0 <= i < |t.log| && t.log[i].Ends() && t.log[i].arm == arm;
      assert EndedAt(t.log, arm, i);
    }
    if Dead(t, arm) {
      DeadForGood(parse, t, more, arm);
    }
  }

  /** Over any run, unreported traversals included, no armed route ends twice, and the armed one has not
      ended. */
  lemma RoutesEndOnce(parse: Parser, s: Page, steps: seq<Step>)
    requires Sound(parse) && Start(s) && Runs(parse, s, steps)
    ensures var t := After(parse, s, steps);
            (t.pending.Some? ==> NeverEnded(t.log, t.pending.value.id))
            && (forall i, j :: 0 <= i < j < |t.log| && t.log[i].Ends() && t.log[j].Ends() ==>
                                 t.log[i].arm != t.log[j].arm)
  {
    RunKeepsFated(parse, s, steps);
  }

  // ---------- the truth decides ----------

  /** A host whose facts are all in. */
  predicate Complete(truth: HostView) {
    !truth.listPending && !truth.listError && truth.authoritative
    && (forall id :: id in truth.listed ==> id in truth.records && truth.records[id] != Unresolved)
  }

  /** A view on its way to `truth`: a pending list says nothing, a list short of its census may lack
      members, records compose late, and a git fact may be unresolved. */
  ghost predicate OnTheWayTo(view: HostView, truth: HostView) {
    !view.listError && view.listed <= truth.listed && view.viewThrows == truth.viewThrows
    && (view.authoritative && !view.listPending ==> view.listed == truth.listed)
    && (forall id :: id in view.records ==>
                       id in truth.records && (view.records[id] == Unresolved || view.records[id] == truth.records[id]))
  }

  /** The wait is long enough: facts that decide before they are all in decide as all of them do, and
      all of them always decide. */
  lemma VerdictsAreNotPremature(view: HostView, truth: HostView, route: DeepLink)
    requires route.TargetsTerminal() && Complete(truth) && OnTheWayTo(view, truth)
    ensures Decided(truth, route) && !Broken(view)
    ensures Decided(view, route) ==>
              && (Ready(view, route) <==> Ready(truth, route))
              && (Absent(view, route) <==> Absent(truth, route))
              && (Repoless(view, route) <==> Repoless(truth, route))
  {
  }

  predicate IsMove(step: Step) {
    step.WorldMoves?
  }

  /** The host's view at each of these moves is on its way to the truth, and the last one is it. */
  ghost predicate MovesTo(steps: seq<Step>, host: HostKey, truth: HostView) {
    |steps| > 0 && (forall i :: 0 <= i < |steps| ==> IsMove(steps[i]) && OnTheWayTo(steps[i].hosts(host), truth))
    && steps[|steps| - 1].hosts(host) == truth
  }

  lemma {:induction false} MovesLeaveIdle(parse: Parser, s: Page, steps: seq<Step>)
    requires Sound(parse) && s.pending.None? && forall i :: 0 <= i < |steps| ==> IsMove(steps[i])
    ensures Runs(parse, s, steps)
    ensures exists hosts :: After(parse, s, steps) == s.(hosts := hosts)
    decreases |steps|
  {
    if steps == [] {
      assert s == s.(hosts := s.hosts);
    } else {
      assert IsMove(steps[0]);
      var t := Next(parse, s, steps[0]);
      MovesLeaveIdle(parse, t, steps[1..]);
      var hosts :| After(parse, t, steps[1..]) == t.(hosts := hosts);
      assert After(parse, s, steps) == s.(hosts := hosts);
    }
  }

  /** However a host's facts come in, an armed link ends in exactly one note, the one the whole truth
      calls for: enacted exactly when the truth is ready for it and its view does not throw. */
  lemma {:induction false} TheTruthDecides(parse: Parser, s: Page, steps: seq<Step>, truth: HostView)
    requires Sound(parse) && Inv(parse, s) && s.pending.Some?
    requires Complete(truth) && MovesTo(steps, s.active, truth)
    ensures Runs(parse, s, steps)
    ensures var t := After(parse, s, steps);
            |t.log| == |s.log| + 1 && IsVerdict(t.log[|s.log|], s.pending.value, Here(s).id, truth)
            && EndsWith(s.(hosts := t.hosts), t, t.log[|s.log|])
    decreases |steps|
  {
    var a := s.pending.value;
    assert IsMove(steps[0]);
    var moved := s.(hosts := steps[0].hosts);
    var t := Next(parse, s, steps[0]);
    SettlesByTheFacts(moved);
    VerdictsAreNotPremature(View(moved), truth, a.route);
    InvariantExactly(parse, s, steps[0]);
    if Decided(View(moved), a.route) {
      MovesLeaveIdle(parse, t, steps[1..]);
    } else {
      assert steps[1..] != [];
      TheTruthDecides(parse, t, steps[1..], truth);
    }
  }

  /** The page that following the link ends in: one note more, the one the truth calls for, on the
      fresh entry, stamped unless `enact` threw; whatever was armed before is dead. */
  ghost predicate FollowedTo(s: Page, u: Page, l: DeepLink, hash: string, truth: HostView)
    requires l.TargetsTerminal() && IsEncodedHostKey(l.host)
  {
    && |u.log| == |s.log| + 1 && s.log <= u.log
    && IsVerdict(u.log[|s.log|], Arm(s.nextArm, l), s.nextEntry, truth)
    && u.pending.None? && Here(u) == Entry(s.nextEntry, hash, !u.log[|s.log|].EnactThrew?)
    && u.active == HostOf(l.host)
    && (s.pending.Some? ==> Dead(u, s.pending.value.id))
  }

  lemma FollowArms(parse: Parser, s: Page, hash: string, l: DeepLink)
    requires Sound(parse) && parse(hash) == Link(l) && l.TargetsTerminal()
    ensures Routable(Link(l))
    ensures var h := HashChanged(parse, PushEntry(s, hash));
            h.pending == Some(Arm(s.nextArm, l)) && h.log == s.log && h.active == HostOf(l.host) && h.hosts == s.hosts
            && Here(h) == Entry(s.nextEntry, hash, false)
  {
    assert Routable(parse(hash));
  }

  lemma {:induction false} FollowedIsDecided(
    parse: Parser, s: Page, hash: string, l: DeepLink, steps: seq<Step>, truth: HostView)
    requires Sound(parse) && Inv(parse, s) && hash != Here(s).hash
    requires parse(hash) == Link(l) && l.TargetsTerminal() && IsEncodedHostKey(l.host)
    requires Complete(truth) && OnTheWayTo(s.hosts(HostOf(l.host)), truth) && MovesTo(steps, HostOf(l.host), truth)
    ensures Runs(parse, Next(parse, s, Follow(hash)), steps)
    ensures FollowedTo(s, After(parse, Next(parse, s, Follow(hash)), steps), l, hash, truth)
  {
    FollowArms(parse, s, hash, l);
    var h := HashChanged(parse, PushEntry(s, hash));
    assert Handle(parse, s, Follow(hash)) == h;
    var t := Next(parse, s, Follow(hash));
    SettlesByTheFacts(h);
    VerdictsAreNotPremature(View(h), truth, l);
    InvariantExactly(parse, s, Follow(hash));
    if Decided(View(h), l) {
      MovesLeaveIdle(parse, t, steps);
    } else {
      TheTruthDecides(parse, t, steps, truth);
    }
    if s.pending.Some? {
      SupersededInSilence(parse, s, Follow(hash));
      DeadForGood(parse, t, steps, s.pending.value.id);
    }
  }

  /** From the address bar to the view: a well-formed terminal link that is followed, and whose host
      then makes its facts known, ends in exactly one note on its fresh entry, the one the whole truth
      calls for; nothing else is said, and whatever was armed before is dead. */
  lemma FollowedLinkIsDecided(isId: IdTest, s: Page, l: DeepLink, steps: seq<Step>, truth: HostView)
    requires !isId("") && WellFormed(l, isId) && l.TargetsTerminal() && Here(s).hash != PrintDeepLink(l)
    requires Inv((hash: string) => ParseDeepLink(hash, isId), s)
    requires IsEncodedHostKey(l.host) && Complete(truth) && OnTheWayTo(s.hosts(HostOf(l.host)), truth)
    requires MovesTo(steps, HostOf(l.host), truth)
    ensures var parse: Parser := (hash: string) => ParseDeepLink(hash, isId);
            Sound(parse)
            && (var t := Next(parse, s, Follow(PrintDeepLink(l)));
                Runs(parse, t, steps) && FollowedTo(s, After(parse, t, steps), l, PrintDeepLink(l), truth))
  {
    GrammarIsSound(isId);
    ParseUndoesPrint(l, isId);
    FollowedIsDecided((hash: string) => ParseDeepLink(hash, isId), s, PrintDeepLink(l), l, steps, truth);
  }

  // ---------- what outlives its route ----------

  /** An intent with nothing armed is the terminal of the last route `enact` was reached for, and that
      one was enacted. */
  ghost predicate IntentEnacted(s: Page) {
    IntentReached(s) && (s.pending.None? && s.intent.Some? ==> LastAttempt(s.log).value.Enacted?)
  }

  /** The step reaches `enact`, and a view action there throws. */
  ghost predicate Throws(parse: Parser, s: Page, step: Step)
    requires Sound(parse) && Enabled(s, step) && ArmTargetsTerminal(s)
  {
    var h := Handle(parse, s, step);
    match h.pending
    case None => false
    case Some(a) => EncodeHostKey(h.active) == a.route.host && Ready(View(h), a.route) && View(h).viewThrows
  }

  /** What a handler leaves of the log's attempts and of an intent with nothing armed. */
  ghost predicate NoAttempt(s: Page, t: Page) {
    LastAttempt(t.log) == LastAttempt(s.log)
    && (t.pending.None? && t.intent.Some? ==> s.pending.None? && t.intent == s.intent)
  }

  lemma NavigateAttemptsNothing(s: Page, link: Parsed)
    requires Routable(link)
    ensures NoAttempt(s, Navigate(s, link))
  {
    LastAttemptOfSaid(s.log, InvalidLinkToast);
    LastAttemptOfSaid(s.log, SettingsOpened);
  }

  lemma DeliverAttemptsNothing(parse: Parser, s: Page, launch: Launch)
    requires Sound(parse)
    ensures NoAttempt(s, Deliver(parse, s, launch))
  {
    LastAttemptOfSaid(s.log, BadLaunchToast);
    if launch.LaunchHash? {
      NavigateAttemptsNothing(if launch.hash != "" then Replace(s, launch.hash) else s, parse(launch.hash));
    }
  }

  lemma HandleAttemptsNothing(parse: Parser, s: Page, step: Step)
    requires Sound(parse) && Enabled(s, step) && ArmTargetsTerminal(s)
    ensures NoAttempt(s, Handle(parse, s, step))
  {
    match step
    case Follow(hash) => NavigateAttemptsNothing(PushEntry(s, hash), parse(hash));
    case FollowAgain =>
    case Traverse(to) => NavigateAttemptsNothing(s.(cur := to), parse(s.history[to].hash));
    case Outside(launch) => DeliverAttemptsNothing(parse, s, launch);
    case SwitchHost(host) =>
    case WorldMoves(hosts) =>
    case Backstop =>
      if s.pending.Some? {
        var a := s.pending.value;
        LastAttemptOfSaid(s.log, Failed(a.id, Here(s).id, TimeoutFault(View(s), a.route)));
      }
    case Reload(queued, world) =>
      var t := Unloaded(s, world);
      DeliverAttemptsNothing(parse, t, queued);
      NavigateAttemptsNothing(t, parse(Here(t).hash));
  }

  /** An intent that outlives its route is an enacted one's after exactly the steps that do not throw. */
  lemma IntentIsEnactedExactly(parse: Parser, s: Page, step: Step)
    requires Sound(parse) && Inv(parse, s) && Enabled(s, step) && IntentEnacted(s)
    ensures IntentEnacted(Next(parse, s, step)) <==> !Throws(parse, s, step)
  {
    var h := Handle(parse, s, step);
    HandleAttemptsNothing(parse, s, step);
    if SilentReplay(s, step) {
      assert h == s.(cur := step.to) && Settle(h) == h;
    } else {
      HandleKeepsCore(parse, s, step);
      SettleKeepsIntent(parse, h);
    }
  }

  lemma SettleKeepsIntent(parse: Parser, h: Page)
    requires Core(parse, h) && (h.pending.None? ==> IntentEnacted(h))
    ensures ArmTargetsTerminal(h)
    ensures IntentEnacted(Settle(h)) <==>
            !(h.pending.Some? && EncodeHostKey(h.active) == h.pending.value.route.host
              && Ready(View(h), h.pending.value.route) && View(h).viewThrows)
  {
    SettleReachesInv(parse, h);
    if h.pending.Some? {
      SettlesByTheFacts(h);
      var t := Settle(h);
      if |t.log| == |h.log| + 1 {
        LastAttemptOfSaid(h.log, t.log[|h.log|]);
      }
    }
  }

  /** No step of the run throws. */
  ghost predicate ThrowFree(parse: Parser, s: Page, steps: seq<Step>)
    requires Sound(parse) && ArmTargetsTerminal(s) && Runs(parse, s, steps)
    decreases |steps|
  {
    steps == [] || (!Throws(parse, s, steps[0]) && ThrowFree(parse, Next(parse, s, steps[0]), steps[1..]))
  }

  /** Over any run in which no view action throws, an intent that outlives its route is the terminal of
      the last route enacted. */
  lemma IntentIsTheLastEnacted(parse: Parser, s: Page, steps: seq<Step>)
    requires Sound(parse) && Start(s) && Runs(parse, s, steps) && Reported(parse, s, steps)
    requires ThrowFree(parse, s, steps)
    ensures IntentEnacted(After(parse, s, steps))
  {
    ThrowFreeKeepsIntent(parse, s, steps);
  }

  lemma {:induction false} ThrowFreeKeepsIntent(parse: Parser, s: Page, steps: seq<Step>)
    requires Sound(parse) && Inv(parse, s) && IntentEnacted(s)
    requires Runs(parse, s, steps) && Reported(parse, s, steps) && ThrowFree(parse, s, steps)
    ensures IntentEnacted(After(parse, s, steps))
    decreases |steps|
  {
    if steps != [] {
      InvariantExactly(parse, s, steps[0]);
      IntentIsEnactedExactly(parse, s, steps[0]);
      ThrowFreeKeepsIntent(parse, Next(parse, s, steps[0]), steps[1..]);
    }
  }

  ghost predicate Calm(hosts: HostKey -> HostView) {
    forall host :: !hosts(host).viewThrows
  }

  ghost predicate CalmStep(step: Step) {
    match step
    case WorldMoves(hosts) => Calm(hosts)
    case Reload(_, world) => Calm(world)
    case _ => true
  }

  lemma HandleKeepsCalm(parse: Parser, s: Page, step: Step)
    requires Sound(parse) && Enabled(s, step) && ArmTargetsTerminal(s)
    requires Calm(s.hosts) && CalmStep(step)
    ensures Calm(Handle(parse, s, step).hosts)
  {
  }

  lemma CalmStepsDoNotThrow(parse: Parser, s: Page, step: Step)
    requires Sound(parse) && Enabled(s, step) && ArmTargetsTerminal(s)
    requires Calm(s.hosts) && CalmStep(step)
    ensures !Throws(parse, s, step) && Calm(Next(parse, s, step).hosts)
  {
    HandleKeepsCalm(parse, s, step);
    SettleOnlyAdds(Handle(parse, s, step));
  }

  /** Where no host's view actions ever throw, no step does. */
  lemma {:induction false} CalmRunsAreThrowFree(parse: Parser, s: Page, steps: seq<Step>)
    requires Sound(parse) && ArmTargetsTerminal(s) && Runs(parse, s, steps)
    requires Calm(s.hosts) && forall i :: 0 <= i < |steps| ==> CalmStep(steps[i])
    ensures ThrowFree(parse, s, steps)
    decreases |steps|
  {
    if steps != [] {
      assert CalmStep(steps[0]);
      CalmStepsDoNotThrow(parse, s, steps[0]);
      CalmRunsAreThrowFree(parse, Next(parse, s, steps[0]), steps[1..]);
    }
  }

  // ---------- runs that show the exceptions ----------

  /** A throw leaves a link that was never enacted steering the focus: its intent survives, and its
      entry, unstamped, is routed again by a reload. */
  lemma AThrowLeavesTheIntent(isId: IdTest, id: string, world: HostKey -> HostView)
    requires isId(id) && !isId("")
    requires world(Local) == HostView(false, false, true, {id}, map[id := NoRepo], true)
    ensures var parse: Parser := (hash: string) => ParseDeepLink(hash, isId);
            var l := TerminalLink("local", id);
            var s := PageData([Entry(0, PrintDeepLink(l), false)], 0, None, None, Local, world, 1, 0, []);
            Sound(parse) && Start(s)
            && (var t := Next(parse, s, Reload(NoLaunch, world));
                t.pending.None? && t.intent == Some(id) && t.log == [EnactThrew(0, 0, l)] && !Here(t).routed
                && Throws(parse, s, Reload(NoLaunch, world)) && !IntentEnacted(t)
                && Next(parse, t, Reload(NoLaunch, world)).log == [EnactThrew(0, 0, l), EnactThrew(1, 0, l)])
  {
    var parse: Parser := (hash: string) => ParseDeepLink(hash, isId);
    var l := TerminalLink("local", id);
    GrammarIsSound(isId);
    LocalLinkParses(isId, id);
    ThrowingBoot(parse, PrintDeepLink(l), l, world);
  }

  lemma ThrowingBoot(parse: Parser, hash: string, l: DeepLink, world: HostKey -> HostView)
    requires Sound(parse) && parse(hash) == Link(l) && l.TerminalLink? && l.host == "local"
    requires world(Local) == HostView(false, false, true, {l.terminalId}, map[l.terminalId := NoRepo], true)
    ensures var s := PageData([Entry(0, hash, false)], 0, None, None, Local, world, 1, 0, []);
            var t := Next(parse, s, Reload(NoLaunch, world));
            t == s.(intent := Some(l.terminalId), log := [EnactThrew(0, 0, l)], nextArm := 1)
            && Throws(parse, s, Reload(NoLaunch, world)) && !IntentEnacted(t)
            && Next(parse, t, Reload(NoLaunch, world)).log == [EnactThrew(0, 0, l), EnactThrew(1, 0, l)]
  {
    var s := PageData([Entry(0, hash, false)], 0, None, None, Local, world, 1, 0, []);
    assert Routable(parse(hash));
    assert HostOf("local") == Local;
    var t := Next(parse, s, Reload(NoLaunch, world));
    assert t.log == [EnactThrew(0, 0, l)];
    LastAttemptOfSaid([], EnactThrew(0, 0, l));
    assert [] + [EnactThrew(0, 0, l)] == t.log;
  }

  /** Boot on the link, leave it, follow it again while its host stalls, go back to the first entry, and
      let the host answer: the consumed entry's command is enacted a second time. */
  ghost predicate ReplayedTwice(
    parse: Parser, hash: string, l: DeepLink, world: HostKey -> HostView, stalled: HostKey -> HostView)
    requires Sound(parse)
  {
    var s := PageData([Entry(0, hash, false)], 0, None, None, Local, world, 1, 0, []);
    var s1 := Next(parse, s, Reload(NoLaunch, world));
    Start(s) && Enabled(s1, Follow("#"))
    && (var s2 := Next(parse, s1, Follow("#"));
        var s3 := Next(parse, s2, WorldMoves(stalled));
        Enabled(s3, Follow(hash))
        && (var s4 := Next(parse, s3, Follow(hash));
            Enabled(s4, Traverse(0)) && SilentReplay(s4, Traverse(0))
            && (var s5 := Next(parse, s4, Traverse(0));
                var s6 := Next(parse, s5, WorldMoves(world));
                s6.log == [Enacted(0, 0, l), Enacted(1, 0, l)])))
  }

  lemma ReplayFrom(parse: Parser, hash: string, l: DeepLink, world: HostKey -> HostView, stalled: HostKey -> HostView)
    requires Sound(parse) && parse(hash) == Link(l) && l.TerminalLink? && l.host == "local" && parse("#").NoLink?
    requires world(Local) == HostView(false, false, true, {l.terminalId}, map[l.terminalId := NoRepo], false)
    requires stalled(Local) == HostView(true, false, true, {l.terminalId}, map[l.terminalId := NoRepo], false)
    ensures ReplayedTwice(parse, hash, l, world, stalled)
  {
    var s := PageData([Entry(0, hash, false)], 0, None, None, Local, world, 1, 0, []);
    assert Routable(parse(hash)) && HostOf("local") == Local;
    var s1 := Next(parse, s, Reload(NoLaunch, world));
    assert s1.history == [Entry(0, hash, true)] && s1.log == [Enacted(0, 0, l)];
    var s2 := Next(parse, s1, Follow("#"));
    assert s2.history == [Entry(0, hash, true), Entry(1, "#", true)];
    var s3 := Next(parse, s2, WorldMoves(stalled));
    var s4 := Next(parse, s3, Follow(hash));
    assert s4.history == [Entry(0, hash, true), Entry(1, "#", true), Entry(2, hash, false)];
    var s5 := Next(parse, s4, Traverse(0));
    assert s5 == s4.(cur := 0);
  }

  lemma LocalLinkParses(isId: IdTest, id: string)
    requires isId(id) && !isId("")
    ensures ParseDeepLink(PrintDeepLink(TerminalLink("local", id)), isId) == Link(TerminalLink("local", id))
    ensures ParseDeepLink("#", isId).NoLink?
  {
    assert IsEncodedHostKey("local");
    ParseUndoesPrint(TerminalLink("local", id), isId);
    assert Unhashed("#") == "" && Split("", '?') == [""];
  }

  /** Why silent replays are excepted: on the real grammar, with any terminal of this machine, a traversal
      between entries of one hash lets a consumed entry's command be enacted a second time. */
  lemma SilentReplayEnactsTwice(isId: IdTest, id: string, world: HostKey -> HostView, stalled: HostKey -> HostView)
    requires isId(id) && !isId("")
    requires world(Local) == HostView(false, false, true, {id}, map[id := NoRepo], false)
    requires stalled(Local) == HostView(true, false, true, {id}, map[id := NoRepo], false)
    ensures var parse: Parser := (hash: string) => ParseDeepLink(hash, isId);
            var l := TerminalLink("local", id);
            Sound(parse) && ReplayedTwice(parse, PrintDeepLink(l), l, world, stalled)
  {
    GrammarIsSound(isId);
    LocalLinkParses(isId, id);
    var l := TerminalLink("local", id);
    ReplayFrom((hash: string) => ParseDeepLink(hash, isId), PrintDeepLink(l), l, world, stalled);
  }

  /** A link to the hash already shown does nothing at once, but it unstamps: the next reload gives the
      consumed command again. */
  lemma FollowedAgainIsCommandedAgain(parse: Parser, s: Page, route: DeepLink, world: HostKey -> HostView)
    requires Sound(parse) && s.pending.None? && Here(s).routed
    requires parse(Here(s).hash) == Link(route) && route.TargetsTerminal()
    ensures var t := Next(parse, s, FollowAgain);
            && t.log == s.log && t.active == s.active && t.intent == s.intent && t.pending.None?
            && Here(t) == Entry(s.nextEntry, Here(s).hash, false)
            && Boot(parse, Unloaded(t, world), NoLaunch).pending == Some(Arm(s.nextArm, route))
  {
    var t := Next(parse, s, FollowAgain);
    ReloadRetriesUnresolved(parse, t, world, route);
  }
}
