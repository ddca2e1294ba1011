/** What every run of the router keeps. */
module RouterProofs {
  import opened Text
  import opened HostKeys
  import opened DeepLinks
  import opened RouterSpec

  // ---------- the invariant ----------

  ghost predicate EntriesNamed(s: Page) {
    (forall i :: 0 <= i < |s.history| ==> s.history[i].id < s.nextEntry)
    && (forall i, j :: 0 <= i < j < |s.history| ==> s.history[i].id != s.history[j].id)
  }

  /** The armed route is the current entry's own command, not yet consumed, and the focus intent is
      its terminal. */
  ghost predicate ArmedHere(parse: Parser, s: Page) {
    match s.pending
    case None => true
    case Some(a) =>
      a.id < s.nextArm && a.route.TargetsTerminal()
      && !Here(s).routed && parse(Here(s).hash) == Link(a.route)
      && s.intent == Some(a.route.terminalId)
  }

  /** Once the effects have run, what is still armed is on its own host and waiting. */
  ghost predicate Quiet(s: Page) {
    match s.pending
    case None => true
    case Some(a) =>
      a.route.TargetsTerminal()
      && EncodeHostKey(s.active) == a.route.host && VerdictOf(View(s), a.route) == Wait
  }

  /** An entry's command is enacted or declared failed at most once, and its entry is then stamped. */
  ghost predicate ConsumedOnce(s: Page) {
    (forall i :: 0 <= i < |s.log| && s.log[i].Consumes() ==> s.log[i].entry < s.nextEntry)
    && (forall i, k :: 0 <= i < |s.log| && s.log[i].Consumes() && 0 <= k < |s.history| ==>
                         s.history[k].id == s.log[i].entry ==> s.history[k].routed)
    && (forall i, j :: 0 <= i < j < |s.log| && s.log[i].Consumes() && s.log[j].Consumes() ==>
                         s.log[i].entry != s.log[j].entry)
  }

  /** A route ends at most once, and the armed one has not ended. */
  ghost predicate EndedOnce(s: Page) {
    (forall i :: 0 <= i < |s.log| && s.log[i].Ends() ==>
                   s.log[i].arm < s.nextArm && (s.pending.Some? ==> s.log[i].arm != s.pending.value.id))
    && (forall i, j :: 0 <= i < j < |s.log| && s.log[i].Ends() && s.log[j].Ends() ==>
                         s.log[i].arm != s.log[j].arm)
  }

  ghost function LastAttempt(log: seq<Note>): (n: Option<Note>)
    ensures n.Some? ==> n.value.Attempts()
  {
    if log == [] then None
    else if log[|log| - 1].Attempts() then Some(log[|log| - 1])
    else LastAttempt(log[..|log| - 1])
  }

  /** An intent with nothing armed is the terminal of the last route that `enact` was reached for. */
  ghost predicate IntentReached(s: Page) {
    s.pending.None? && s.intent.Some? ==>
      LastAttempt(s.log).Some? && LastAttempt(s.log).value.route.TargetsTerminal()
      && s.intent == Some(LastAttempt(s.log).value.route.terminalId)
  }

  /** What holds between a handler and its effects. */
  ghost predicate Core(parse: Parser, s: Page) {
    EntriesNamed(s) && ArmedHere(parse, s) && ConsumedOnce(s) && EndedOnce(s) && IntentReached(s)
  }

  ghost predicate Inv(parse: Parser, s: Page) {
    Core(parse, s) && Quiet(s)
  }

  /** A page before its document has loaded: any history, any stamps, any host. */
  ghost predicate Start(s: Page) {
    s.pending.None? && s.intent.None? && s.log == [] && EntriesNamed(s)
  }

  // ---------- small steps ----------

  lemma LastAttemptOfSaid(log: seq<Note>, note: Note)
    ensures LastAttempt(log + [note]) == if note.Attempts() then Some(note) else LastAttempt(log)
  {
    assert (log + [note])[..|log|] == log;
  }

  lemma SaySpares(parse: Parser, s: Page, note: Note)
    requires Core(parse, s) && !note.Ends()
    ensures Core(parse, Say(s, note))
  {
    LastAttemptOfSaid(s.log, note);
  }

  lemma DisarmKeepsCore(parse: Parser, s: Page)
    requires Core(parse, s)
    ensures Core(parse, Disarm(s)) && Disarm(s).pending.None?
  {
  }

  lemma StampKeepsCore(parse: Parser, s: Page)
    requires Core(parse, s) && s.pending.None?
    ensures Core(parse, Stamp(s))
  {
  }

  /** Ending the armed route with a fault: the note is its only one, and its entry's. */
  lemma FailedConsumesOnce(s: Page, note: Note)
    requires EntriesNamed(s) && ConsumedOnce(s) && !Here(s).routed
    requires note.Failed? && note.entry == Here(s).id
    ensures ConsumedOnce(Say(DisarmResolved(s), note))
  {
    assert forall i :: 0 <= i < |s.log| && s.log[i].Consumes() ==> s.log[i].entry != note.entry;
  }

  lemma FailedEndsOnce(s: Page, note: Note)
    requires EndedOnce(s) && s.pending.Some? && s.pending.value.id < s.nextArm
    requires note.Failed? && note.arm == s.pending.value.id
    ensures EndedOnce(Say(DisarmResolved(s), note))
  {
  }

  lemma EndKeepsCore(parse: Parser, s: Page, note: Note)
    requires Core(parse, s) && s.pending.Some?
    requires note.Failed? && note.arm == s.pending.value.id && note.entry == Here(s).id
    ensures Core(parse, Say(DisarmResolved(s), note))
  {
    DisarmKeepsCore(parse, s);
    StampKeepsCore(parse, Disarm(s));
    FailedConsumesOnce(s, note);
    FailedEndsOnce(s, note);
  }

  lemma SettleReachesInv(parse: Parser, s: Page)
    requires Core(parse, s)
    ensures Inv(parse, Settle(s))
  {
    if s.pending.Some? {
      var a := s.pending.value;
      if EncodeHostKey(s.active) != a.route.host {
        DisarmKeepsCore(parse, s);
        StampKeepsCore(parse, Disarm(s));
      } else {
        match VerdictOf(View(s), a.route)
        case Wait =>
        case Fail(fault) => EndKeepsCore(parse, s, Failed(a.id, Here(s).id, fault));
        case Enact => EnactKeepsCore(parse, s);
      }
    }
  }

  lemma EnactKeepsCore(parse: Parser, s: Page)
    requires Core(parse, s) && s.pending.Some?
    requires EncodeHostKey(s.active) == s.pending.value.route.host
    requires VerdictOf(View(s), s.pending.value.route) == Enact
    ensures Core(parse, Settle(s))
  {
    var a := s.pending.value;
    var note := if View(s).viewThrows then EnactThrew(a.id, Here(s).id, a.route)
                else Enacted(a.id, Here(s).id, a.route);
    LastAttemptOfSaid(s.log, note);
  }

  lemma ShownAndStamped(parse: Parser, s: Page, note: Note)
    requires Core(parse, s) && s.pending.None? && !note.Ends()
    ensures Core(parse, Stamp(Say(s, note)))
  {
    SaySpares(parse, s, note);
    StampKeepsCore(parse, Say(s, note));
  }

  lemma RouteKeepsCore(parse: Parser, s: Page, route: DeepLink)
    requires Core(parse, s) && s.pending.None?
    requires route.TargetsTerminal() && IsEncodedHostKey(route.host)
    requires !Here(s).routed && parse(Here(s).hash) == Link(route)
    ensures Core(parse, RouteToTerminal(s, route))
  {
  }

  lemma NavigateKeepsCore(parse: Parser, s: Page, link: Parsed)
    requires Sound(parse) && Core(parse, s) && Routable(link)
    requires link.Link? && link.link.TargetsTerminal() ==> !Here(s).routed && parse(Here(s).hash) == link
    ensures Core(parse, Navigate(s, link))
  {
    var t := Disarm(s);
    DisarmKeepsCore(parse, s);
    match link
    case NoLink => StampKeepsCore(parse, t);
    case Invalid(_) => ShownAndStamped(parse, t, InvalidLinkToast);
    case Link(l) =>
      if l.SettingsLink? {
        ShownAndStamped(parse, t, SettingsOpened);
      } else if l.HostLink? {
        StampKeepsCore(parse, t.(active := HostOf(l.host)));
      } else {
        RouteKeepsCore(parse, t, l);
      }
  }

  lemma ReplaceKeepsCore(parse: Parser, s: Page, hash: string)
    requires Core(parse, s) && s.pending.None?
    ensures Core(parse, Replace(s, hash))
  {
  }

  /** A renewed entry is the same command, and a fresh one. */
  lemma RenewKeepsCore(parse: Parser, s: Page)
    requires Core(parse, s)
    ensures Core(parse, Replace(s, Here(s).hash))
  {
  }

  lemma DeliverKeepsCore(parse: Parser, s: Page, launch: Launch)
    requires Sound(parse) && Core(parse, s)
    ensures Core(parse, Deliver(parse, s, launch))
  {
    match launch
    case NoLaunch =>
    case LaunchWithoutUrl =>
    case MalformedLaunch => SaySpares(parse, s, BadLaunchToast);
    case LaunchHash(hash) =>
      // Replacing the entry under an armed route is followed at once by its disarm.
      assert Navigate(if hash != "" then Replace(s, hash) else s, parse(hash))
          == Navigate(if hash != "" then Replace(Disarm(s), hash) else Disarm(s), parse(hash));
      DisarmKeepsCore(parse, s);
      if hash != "" {
        ReplaceKeepsCore(parse, Disarm(s), hash);
      }
      NavigateKeepsCore(parse, if hash != "" then Replace(Disarm(s), hash) else Disarm(s), parse(hash));
  }

  /** A hash from outside lands on a fresh entry, which stays unstamped exactly while its route is armed. */
  lemma OutsideLands(parse: Parser, s: Page, hash: string)
    requires Sound(parse)
    ensures var t := NavigateFromExternal(parse, s, hash);
            if hash == "" then Here(t).routed && t.pending.None?
            else Here(t) == Entry(s.nextEntry, hash, t.pending.None?)
    ensures Core(parse, s) ==> Core(parse, NavigateFromExternal(parse, s, hash))
  {
    assert Routable(parse(hash));
    if Core(parse, s) {
      DeliverKeepsCore(parse, s, LaunchHash(hash));
    }
  }

  /** A traversal the browser does not report, onto a consumed entry that shows the same hash. */
  predicate SilentReplay(s: Page, step: Step) {
    step.Traverse? && step.to < |s.history| && s.pending.Some?
    && s.history[step.to].hash == Here(s).hash && s.history[step.to].routed
  }

  lemma HashChangedKeepsCore(parse: Parser, s: Page)
    requires Sound(parse) && Core(parse, Disarm(s))
    ensures Core(parse, HashChanged(parse, s))
  {
    if !Here(s).routed {
      NavigateKeepsCore(parse, Disarm(s), parse(Here(s).hash));
      assert Disarm(Disarm(s)) == Disarm(s);
    }
  }

  lemma PushKeepsCore(parse: Parser, s: Page, hash: string)
    requires Core(parse, s) && s.pending.None?
    ensures Core(parse, PushEntry(s, hash))
  {
  }

  lemma FollowKeepsCore(parse: Parser, s: Page, hash: string)
    requires Sound(parse) && Core(parse, s)
    ensures Core(parse, HashChanged(parse, PushEntry(s, hash)))
  {
    DisarmKeepsCore(parse, s);
    PushKeepsCore(parse, Disarm(s), hash);
    assert Disarm(PushEntry(s, hash)) == PushEntry(Disarm(s), hash);
    HashChangedKeepsCore(parse, PushEntry(s, hash));
  }

  lemma TraverseKeepsCore(parse: Parser, s: Page, to: nat)
    requires Sound(parse) && Core(parse, s) && to < |s.history|
    ensures Core(parse, HashChanged(parse, s.(cur := to)))
  {
    DisarmKeepsCore(parse, s);
    assert Disarm(s.(cur := to)) == Disarm(s).(cur := to);
    HashChangedKeepsCore(parse, s.(cur := to));
  }

  lemma BackstopKeepsCore(parse: Parser, s: Page)
    requires Core(parse, s)
    ensures Core(parse, BackstopFires(s))
  {
    if s.pending.Some? {
      var a := s.pending.value;
      EndKeepsCore(parse, s, Failed(a.id, Here(s).id, TimeoutFault(View(s), a.route)));
    }
  }

  lemma BootKeepsCore(parse: Parser, s: Page, queued: Launch)
    requires Sound(parse) && Core(parse, s)
    ensures Core(parse, Boot(parse, s, queued))
  {
    if !queued.NoLaunch? {
      DeliverKeepsCore(parse, s, queued);
    } else if !Here(s).routed {
      NavigateKeepsCore(parse, s, parse(Here(s).hash));
    }
  }

  lemma HandleKeepsCore(parse: Parser, s: Page, step: Step)
    requires Sound(parse) && Inv(parse, s) && Enabled(s, step) && !SilentReplay(s, step)
    ensures Core(parse, Handle(parse, s, step))
  {
    match step
    case Follow(hash) => FollowKeepsCore(parse, s, hash);
    case FollowAgain => RenewKeepsCore(parse, s);
    case Traverse(to) =>
      if s.history[to].hash != Here(s).hash {
        TraverseKeepsCore(parse, s, to);
      }
    case Outside(launch) => DeliverKeepsCore(parse, s, launch);
    case SwitchHost(host) =>
    case WorldMoves(hosts) =>
    case Backstop => BackstopKeepsCore(parse, s);
    case Reload(queued, world) => BootKeepsCore(parse, s.(pending := None, intent := None, hosts := world), queued);
  }

  // ---------- every reachable state ----------

  /** Exactly one thing a step can do to break the invariant: traverse, with a route armed, to a
      consumed entry of the same hash, which the browser reports to nobody. */
  lemma InvariantExactly(parse: Parser, s: Page, step: Step)
    requires Sound(parse) && Inv(parse, s) && Enabled(s, step)
    ensures Inv(parse, Next(parse, s, step)) <==> !SilentReplay(s, step)
  {
    if SilentReplay(s, step) {
      assert Settle(Handle(parse, s, step)) == s.(cur := step.to);
    } else {
      HandleKeepsCore(parse, s, step);
      SettleReachesInv(parse, Handle(parse, s, step));
    }
  }

  /** The runs of the router from a page: each step enabled. */
  ghost predicate Runs(parse: Parser, s: Page, steps: seq<Step>)
    requires Sound(parse) && ArmTargetsTerminal(s)
    decreases |steps|
  {
    steps == [] || (Enabled(s, steps[0]) && Runs(parse, Next(parse, s, steps[0]), steps[1..]))
  }

  /** No step of the run is a silent replay. */
  ghost predicate Reported(parse: Parser, s: Page, steps: seq<Step>)
    requires Sound(parse) && ArmTargetsTerminal(s) && Runs(parse, s, steps)
    decreases |steps|
  {
    steps == [] || (!SilentReplay(s, steps[0]) && Reported(parse, Next(parse, s, steps[0]), steps[1..]))
  }

  ghost function After(parse: Parser, s: Page, steps: seq<Step>): (t: Page)
    requires Sound(parse) && ArmTargetsTerminal(s) && Runs(parse, s, steps)
    ensures ArmTargetsTerminal(t)
    decreases |steps|
  {
    if steps == [] then s else After(parse, Next(parse, s, steps[0]), steps[1..])
  }

  lemma {:induction false} RunKeepsInv(parse: Parser, s: Page, steps: seq<Step>)
    requires Sound(parse) && Inv(parse, s) && Runs(parse, s, steps) && Reported(parse, s, steps)
    ensures Inv(parse, After(parse, s, steps))
    decreases |steps|
  {
    if steps != [] {
      InvariantExactly(parse, s, steps[0]);
      RunKeepsInv(parse, Next(parse, s, steps[0]), steps[1..]);
    }
  }

  /** After any run from a page that has loaded nothing yet, an armed route belongs to the current
      history entry: the entry is unstamped and its hash parses to that very route, the intent is
      the route's terminal, the active host is the route's, and the route is waiting. */
  lemma ArmedRouteBelongsToItsEntry(parse: Parser, s: Page, steps: seq<Step>)
    requires Sound(parse) && Start(s) && Runs(parse, s, steps) && Reported(parse, s, steps)
    ensures var t := After(parse, s, steps);
            t.pending.Some? ==>
              var route := t.pending.value.route;
              !Here(t).routed && parse(Here(t).hash) == Link(route) && route.TargetsTerminal()
              && t.intent == Some(route.terminalId)
              && IsEncodedHostKey(route.host) && t.active == HostOf(route.host)
              && VerdictOf(View(t), route) == Wait
  {
    RunKeepsInv(parse, s, steps);
    var t := After(parse, s, steps);
    if t.pending.Some? {
      assert Routable(parse(Here(t).hash));
      EqualKeysAreEqual(t.active, HostOf(t.pending.value.route.host));
    }
  }

  // ---------- the browser's part of a step ----------

  /** The page once the browser has moved and before a handler runs. */
  ghost function Moved(s: Page, step: Step): (p: Page)
    requires Enabled(s, step)
    ensures p.log == s.log && p.nextArm == s.nextArm && s.nextEntry <= p.nextEntry
  {
    match step
    case Follow(hash) => PushEntry(s, hash)
    case FollowAgain => Replace(s, Here(s).hash)
    case Traverse(to) => s.(cur := to)
    case Outside(launch) => if launch.LaunchHash? && launch.hash != "" then Replace(s, launch.hash) else s
    case SwitchHost(host) => s.(active := host)
    case WorldMoves(hosts) => s.(hosts := hosts)
    case Backstop => s
    case Reload(queued, world) =>
      var t := Unloaded(s, world);
      if queued.LaunchHash? && queued.hash != "" then Replace(t, queued.hash) else t
  }

  // ---------- commands are consumed once per entry ----------

  /** Over any run, a history entry's terminal command is enacted or declared failed at most once, and
      while the entry lasts it stays stamped. */
  lemma CommandsAreConsumedOnce(parse: Parser, s: Page, steps: seq<Step>)
    requires Sound(parse) && Start(s) && Runs(parse, s, steps) && Reported(parse, s, steps)
    ensures var t := After(parse, s, steps);
            (forall i, j :: 0 <= i < j < |t.log| && t.log[i].Consumes() && t.log[j].Consumes() ==>
                              t.log[i].entry != t.log[j].entry)
            && (forall i, k :: 0 <= i < |t.log| && t.log[i].Consumes() && 0 <= k < |t.history| ==>
                                 t.history[k].id == t.log[i].entry ==> t.history[k].routed)
  {
    RunKeepsInv(parse, s, steps);
  }

  /** The step hands the page a fresh command for the entry it is on. */
  predicate ReplacesEntry(step: Step) {
    match step
    case FollowAgain => true
    case Outside(launch) => launch.LaunchHash? && launch.hash != ""
    case Reload(queued, _) => queued.LaunchHash? && queued.hash != ""
    case _ => false
  }

  predicate DropsEntry(s: Page, step: Step, k: nat) {
    (step.Follow? && k > s.cur) || (ReplacesEntry(step) && k == s.cur)
  }

  /** Entry `k` is still there, and has not lost its stamp. */
  predicate Keeps(s: Page, t: Page, k: nat) {
    k < |s.history| && k < |t.history|
    && t.history[k].id == s.history[k].id && t.history[k].hash == s.history[k].hash
    && (s.history[k].routed ==> t.history[k].routed)
  }

  lemma NavigateKeeps(s: Page, link: Parsed, k: nat)
    requires Routable(link) && k < |s.history|
    ensures Keeps(s, Navigate(s, link), k)
  {
  }

  lemma HandleKeeps(parse: Parser, s: Page, step: Step, k: nat)
    requires Sound(parse) && Enabled(s, step) && ArmTargetsTerminal(s)
    requires k < |s.history| && !DropsEntry(s, step, k)
    ensures Keeps(s, Handle(parse, s, step), k)
  {
    match step
    case Follow(hash) =>
      var t := PushEntry(s, hash);
      NavigateKeeps(t, parse(Here(t).hash), k);
    case FollowAgain =>
    case Traverse(to) => NavigateKeeps(s.(cur := to), parse(s.history[to].hash), k);
    case Outside(launch) => DeliverKeeps(parse, s, launch, k);
    case SwitchHost(host) =>
    case WorldMoves(hosts) =>
    case Backstop =>
    case Reload(queued, world) =>
      var t := s.(pending := None, intent := None, hosts := world);
      DeliverKeeps(parse, t, queued, k);
      NavigateKeeps(t, parse(Here(t).hash), k);
  }

  lemma DeliverKeeps(parse: Parser, s: Page, launch: Launch, k: nat)
    requires Sound(parse) && k < |s.history|
    requires launch.LaunchHash? && launch.hash != "" ==> k != s.cur
    ensures Keeps(s, Deliver(parse, s, launch), k)
  {
    if launch.LaunchHash? {
      NavigateKeeps(if launch.hash != "" then Replace(s, launch.hash) else s, parse(launch.hash), k);
    }
  }

  /** An entry a step neither replaces nor cuts off keeps its id and hash, and never loses its stamp. */
  lemma StampsOnlyGrow(parse: Parser, s: Page, step: Step, k: nat)
    requires Sound(parse) && Enabled(s, step) && ArmTargetsTerminal(s)
    requires k < |s.history| && !DropsEntry(s, step, k)
    ensures Keeps(s, Next(parse, s, step), k)
  {
    HandleKeeps(parse, s, step, k);
    SettleKeeps(Handle(parse, s, step), k);
  }

  lemma SettleKeeps(s: Page, k: nat)
    requires ArmTargetsTerminal(s) && k < |s.history|
    ensures Keeps(s, Settle(s), k)
  {
  }

  // ---------- reloads ----------

  function Unloaded(s: Page, world: HostKey -> HostView): Page {
    s.(pending := None, intent := None, hosts := world)
  }

  /** A reload of an unconsumed terminal link always arms it, on its own host, whatever ended the
      last try; with the route still armed nothing else changes. */
  lemma ReloadRetriesUnresolved(parse: Parser, s: Page, world: HostKey -> HostView, route: DeepLink)
    requires Sound(parse) && !Here(s).routed
    requires parse(Here(s).hash) == Link(route) && route.TargetsTerminal()
    ensures Routable(Link(route))
    ensures var t := Boot(parse, Unloaded(s, world), NoLaunch);
            t == Unloaded(s, world).(pending := Some(Arm(s.nextArm, route)), intent := Some(route.terminalId),
                                     active := HostOf(route.host), nextArm := s.nextArm + 1)
    ensures Inv(parse, s) && s.pending.Some? ==> s.pending.value.route == route && s.active == HostOf(route.host)
  {
    assert Routable(parse(Here(s).hash));
    if Inv(parse, s) && s.pending.Some? {
      EqualKeysAreEqual(s.active, HostOf(route.host));
    }
  }

  /** With a route armed, the reloaded document arms that same route exactly when no queued launch
      took the place of the boot parse, or the launch asks for that very link. */
  lemma ReloadRearmsExactly(parse: Parser, s: Page, queued: Launch, world: HostKey -> HostView)
    requires Sound(parse) && Inv(parse, s) && s.pending.Some?
    ensures var t := Boot(parse, Unloaded(s, world), queued);
            (t.pending.Some? && t.pending.value.route == s.pending.value.route)
            <==> queued.NoLaunch? || (queued.LaunchHash? && parse(queued.hash) == Link(s.pending.value.route))
  {
    assert Routable(parse(Here(s).hash));
  }

  /** The steps of a page nobody touches. */
  predicate Idle(step: Step) {
    step.WorldMoves? || step.Backstop? || (step.Reload? && step.queued.NoLaunch?)
  }

  /** Once an entry is consumed, no number of reloads, world changes and timers replays it: nothing
      is armed, nothing is shown, and the active host stays where it was. */
  lemma {:induction false} ConsumedIsNeverReplayed(parse: Parser, s: Page, steps: seq<Step>)
    requires Sound(parse) && Here(s).routed && s.pending.None?
    requires forall i :: 0 <= i < |steps| ==> Idle(steps[i])
    ensures Runs(parse, s, steps)
    ensures var t := After(parse, s, steps);
            t.pending.None? && t.log == s.log && t.active == s.active && t.history == s.history && t.cur == s.cur
    decreases |steps|
  {
    if steps != [] {
      var t := Next(parse, s, steps[0]);
      assert t.pending.None? && t.log == s.log && t.active == s.active && t.history == s.history && t.cur == s.cur;
      ConsumedIsNeverReplayed(parse, t, steps[1..]);
    }
  }

  // ---------- the grammar is such a parser ----------

  /** The deep-link parser keeps the promises the router relies on. */
  lemma GrammarIsSound(isId: IdTest)
    ensures Sound((hash: string) => ParseDeepLink(hash, isId))
  {
    forall hash: string ensures Routable(ParseDeepLink(hash, isId)) {
      if ParseDeepLink(hash, isId).Link? {
        AcceptsExactly(hash, ParseDeepLink(hash, isId).link, isId);
      }
    }
    assert Unhashed("") == "" && Split("", '?') == [""];
  }

  /** So the whole chain holds: following the printed hash of a well-formed terminal link arms exactly
      that link, on its own host, with its terminal as the intent. */
  lemma PrintedLinkArms(isId: IdTest, s: Page, l: DeepLink)
    requires !isId("") && WellFormed(l, isId) && l.TargetsTerminal()
    requires Here(s).hash != PrintDeepLink(l)
    ensures var parse: Parser := (hash: string) => ParseDeepLink(hash, isId);
            Sound(parse) && IsEncodedHostKey(l.host)
            && (var t := HashChanged(parse, PushEntry(s, PrintDeepLink(l)));
                t.pending == Some(Arm(s.nextArm, l)) && t.active == HostOf(l.host)
                && t.intent == Some(l.terminalId) && Here(t).hash == PrintDeepLink(l) && !Here(t).routed)
  {
    GrammarIsSound(isId);
    ParseUndoesPrint(l, isId);
  }
}
