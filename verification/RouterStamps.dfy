/** What the consumed stamp means: which steps stamp a terminal link, and when the stamp says resolved. */
module RouterStamps {
  import opened Text
  import opened HostKeys
  import opened DeepLinks
  import opened RouterSpec
  import opened RouterProofs
  import opened RouterEndings

  /** The hash is a terminal link. */
  predicate Commands(parse: Parser, hash: string) {
    parse(hash).Link? && parse(hash).link.TargetsTerminal()
  }

  /** A launch whose URL has no hash: the bare app. */
  predicate BareLaunch(step: Step) {
    match step
    case Outside(launch) => launch.LaunchHash? && launch.hash == ""
    case Reload(queued, _) => queued.LaunchHash? && queued.hash == ""
    case _ => false
  }

  /** A switch to another host than the armed route's. */
  predicate SwitchAway(s: Page, step: Step)
    requires ArmTargetsTerminal(s)
  {
    step.SwitchHost? && s.pending.Some? && EncodeHostKey(step.host) != s.pending.value.route.host
  }

  /** An entry after a move is an entry from before it, as it was, or a fresh one without a stamp. */
  lemma MovedEntries(s: Page, step: Step, k: nat)
    requires Enabled(s, step) && k < |Moved(s, step).history|
    ensures var e := Moved(s, step).history[k];
            (k < |s.history| && !DropsEntry(s, step, k) && e == s.history[k]) || (e.id == s.nextEntry && !e.routed)
  {
  }

  /** Some note after the first `n` resolves the entry. */
  ghost predicate Resolved(log: seq<Note>, n: nat, entry: nat) {
    exists i :: n <= i < |log| && log[i].Consumes() && log[i].entry == entry
  }

  ghost predicate NothingResolved(p: Page, h: Page) {
    p.log <= h.log && forall i :: |p.log| <= i < |h.log| ==> !h.log[i].Consumes()
  }

  /** The handler left entry `k` as it was, resolved nothing, and arms only on the route's own host. */
  ghost predicate LeftAlone(p: Page, h: Page, k: nat) {
    k < |p.history| && k < |h.history| && h.history[k] == p.history[k] && h.cur == p.cur && NothingResolved(p, h)
    && (h.pending.Some? ==>
          h.pending.value.route.TargetsTerminal() && EncodeHostKey(h.active) == h.pending.value.route.host)
  }

  lemma NavigateLeavesAlone(p: Page, link: Parsed, k: nat)
    requires Routable(link) && k < |p.history|
    requires k == p.cur ==> link.Link? && link.link.TargetsTerminal()
    ensures LeftAlone(p, Navigate(p, link), k)
  {
  }

  /** No handler but a bare launch's stamps a terminal link. */
  lemma HandlerLeavesAlone(parse: Parser, s: Page, step: Step, k: nat)
    requires Sound(parse) && Inv(parse, s) && Enabled(s, step)
    requires var p := Moved(s, step); k < |p.history| && !p.history[k].routed && Commands(parse, p.history[k].hash)
    requires !step.Backstop? && !SwitchAway(s, step) && !(BareLaunch(step) && k == s.cur)
    ensures LeftAlone(Moved(s, step), Handle(parse, s, step), k)
  {
    var p := Moved(s, step);
    match step
    case Follow(hash) => NavigateLeavesAlone(p, parse(hash), k);
    case FollowAgain =>
    case Traverse(to) =>
      if !s.history[to].routed {
        NavigateLeavesAlone(p, parse(s.history[to].hash), k);
      }
    case Outside(launch) =>
      if launch.LaunchHash? {
        NavigateLeavesAlone(p, parse(launch.hash), k);
      }
    case SwitchHost(host) =>
    case WorldMoves(hosts) =>
    case Backstop =>
    case Reload(queued, world) =>
      if queued.LaunchHash? {
        NavigateLeavesAlone(p, parse(queued.hash), k);
      } else if queued.NoLaunch? && !Here(p).routed {
        NavigateLeavesAlone(p, parse(Here(p).hash), k);
      }
  }

  /** The settle effect stamps an entry it left alone exactly when it resolves it. */
  lemma SettleStampsExactly(parse: Parser, p: Page, h: Page, k: nat)
    requires Core(parse, h) && LeftAlone(p, h, k) && !p.history[k].routed
    ensures k < |Settle(h).history|
    ensures Settle(h).history[k].routed <==> Resolved(Settle(h).log, |p.log|, p.history[k].id)
  {
    if h.pending.Some? {
      SettlesByTheFacts(h);
      var t := Settle(h);
      if |t.log| == |h.log| + 1 {
        assert t.log[|h.log|].Consumes() && k == h.cur ==> t.log[|h.log|].entry == p.history[k].id;
      }
    }
  }

  /** The bare launch, the switch away and the backstop: what each does to the entry it is on. */
  lemma BareLaunchStamps(parse: Parser, s: Page, step: Step)
    requires Sound(parse) && ArmTargetsTerminal(s) && Enabled(s, step) && BareLaunch(step)
    ensures var p, t := Moved(s, step), Next(parse, s, step);
            t.pending.None? && t.history == Stamp(p).history && t.cur == p.cur && t.log == p.log
            && t.active == s.active
  {
  }

  lemma SwitchAwayStamps(parse: Parser, s: Page, step: Step)
    requires Sound(parse) && ArmTargetsTerminal(s) && SwitchAway(s, step)
    ensures Next(parse, s, step) == Stamp(s.(active := step.host, pending := None, intent := None))
  {
  }

  lemma BackstopStamps(parse: Parser, s: Page, k: nat)
    requires Sound(parse) && Inv(parse, s) && k < |s.history| && !s.history[k].routed
    ensures var t := Next(parse, s, Backstop);
            t.history[k].routed <==> Resolved(t.log, |s.log|, s.history[k].id)
  {
    if s.pending.Some? {
      TimesOutByTheFacts(s);
      var t := Next(parse, s, Backstop);
      assert t == BackstopFires(s);
      assert t.log[|s.log|].Consumes();
    }
  }

  /** Exactly three things stamp a terminal link that was not: a note that resolves it, a launch of the
      bare app on its entry, and a switch away from its host while it is armed. */
  lemma StampedExactly(parse: Parser, s: Page, step: Step, k: nat)
    requires Sound(parse) && Inv(parse, s) && Enabled(s, step) && !SilentReplay(s, step)
    requires var p := Moved(s, step); k < |p.history| && !p.history[k].routed && Commands(parse, p.history[k].hash)
    ensures var p, t := Moved(s, step), Next(parse, s, step);
            && k < |t.history| && t.history[k].id == p.history[k].id && t.history[k].hash == p.history[k].hash
            && (t.history[k].routed <==>
                Resolved(t.log, |s.log|, p.history[k].id) || (k == s.cur && (BareLaunch(step) || SwitchAway(s, step))))
  {
    var p := Moved(s, step);
    if SwitchAway(s, step) {
      SwitchAwayStamps(parse, s, step);
    } else if BareLaunch(step) && k == s.cur {
      BareLaunchStamps(parse, s, step);
    } else if step.Backstop? {
      BackstopStamps(parse, s, k);
      StampsOnlyGrow(parse, s, step, k);
    } else {
      var h := Handle(parse, s, step);
      HandlerLeavesAlone(parse, s, step, k);
      HandleKeepsCore(parse, s, step);
      SettleStampsExactly(parse, p, h, k);
      SettleKeeps(h, k);
    }
  }

  // ---------- over runs, a stamp is a resolution ----------

  /** Terminal links are stamped only by the note that resolved them, those in `past` aside. */
  ghost predicate StampsAreNoted(parse: Parser, s: Page, past: set<nat>) {
    (forall id :: id in past ==> id < s.nextEntry)
    && (forall k :: 0 <= k < |s.history| && s.history[k].id in past ==> s.history[k].routed)
    && (forall k :: 0 <= k < |s.history| && s.history[k].routed && s.history[k].id !in past ==>
                      Commands(parse, s.history[k].hash) ==> Resolved(s.log, 0, s.history[k].id))
  }

  /** The bare app is launched on a link that nothing has come of yet. */
  predicate LosesLink(parse: Parser, s: Page, step: Step) {
    Commands(parse, Here(s).hash) && !Here(s).routed && BareLaunch(step)
  }

  /** The entry whose link the user walks away from, by a switch to another host while it is armed. */
  function WalkedFrom(s: Page, step: Step): set<nat>
    requires ArmTargetsTerminal(s)
  {
    if SwitchAway(s, step) then {Here(s).id} else {}
  }

  /** From `p` to `t` entry `k` keeps its id and hash and loses no stamp, and nothing is taken back. */
  ghost predicate KeepsMoved(p: Page, t: Page, k: nat) {
    |t.history| == |p.history| && p.nextEntry <= t.nextEntry && p.log <= t.log
    && (k < |p.history| ==> Keeps(p, t, k))
  }

  lemma NextKeepsMoved(parse: Parser, s: Page, step: Step, k: nat)
    requires Sound(parse) && Enabled(s, step) && ArmTargetsTerminal(s)
    ensures KeepsMoved(Moved(s, step), Next(parse, s, step), k)
  {
    HandleKeepsMoved(parse, s, step, k);
    SettleKeepsMoved(Moved(s, step), Handle(parse, s, step), k);
  }

  lemma SettleKeepsMoved(p: Page, h: Page, k: nat)
    requires ArmTargetsTerminal(h) && KeepsMoved(p, h, k)
    ensures KeepsMoved(p, Settle(h), k)
  {
    SettleOnlyAdds(h);
    if k < |h.history| {
      SettleKeeps(h, k);
    }
  }

  lemma NavigateKeepsMoved(p: Page, link: Parsed, k: nat)
    requires Routable(link)
    ensures KeepsMoved(p, Navigate(p, link), k)
  {
  }

  lemma HandleKeepsMoved(parse: Parser, s: Page, step: Step, k: nat)
    requires Sound(parse) && Enabled(s, step) && ArmTargetsTerminal(s)
    ensures KeepsMoved(Moved(s, step), Handle(parse, s, step), k)
  {
    var p := Moved(s, step);
    match step
    case Follow(hash) => NavigateKeepsMoved(p, parse(hash), k);
    case FollowAgain =>
    case Traverse(to) => NavigateKeepsMoved(p, parse(s.history[to].hash), k);
    case Outside(launch) =>
      if launch.LaunchHash? {
        NavigateKeepsMoved(p, parse(launch.hash), k);
      }
    case SwitchHost(host) =>
    case WorldMoves(hosts) =>
    case Backstop =>
    case Reload(queued, world) =>
      if queued.LaunchHash? {
        NavigateKeepsMoved(p, parse(queued.hash), k);
      } else {
        NavigateKeepsMoved(p, parse(Here(p).hash), k);
      }
  }

  lemma ResolvedStays(log: seq<Note>, more: seq<Note>, n: nat, entry: nat)
    requires log <= more && (Resolved(log, 0, entry) || Resolved(more, n, entry))
    ensures Resolved(more, 0, entry)
  {
    if Resolved(log, 0, entry) {
      var i :| 0 <= i < |log| && log[i].Consumes() && log[i].entry == entry;
      assert more[i] == log[i];
    }
  }

  /** Exactly the bare launches part the stamp from the resolution; a link walked away from counts as
      resolved from then on. */
  lemma StampsStayNotedExactly(parse: Parser, s: Page, step: Step, past: set<nat>)
    requires Sound(parse) && Inv(parse, s) && Enabled(s, step) && !SilentReplay(s, step)
    requires StampsAreNoted(parse, s, past)
    ensures StampsAreNoted(parse, Next(parse, s, step), past + WalkedFrom(s, step)) <==> !LosesLink(parse, s, step)
  {
    if LosesLink(parse, s, step) {
      assert past + WalkedFrom(s, step) == past;
      LostLinkIsUnnoted(parse, s, step, past);
    } else {
      StampsStayNoted(parse, s, step, past);
    }
  }

  lemma LostLinkIsUnnoted(parse: Parser, s: Page, step: Step, past: set<nat>)
    requires Sound(parse) && Inv(parse, s) && Enabled(s, step) && !SilentReplay(s, step)
    requires StampsAreNoted(parse, s, past) && LosesLink(parse, s, step)
    ensures !StampsAreNoted(parse, Next(parse, s, step), past)
  {
    var t := Next(parse, s, step);
    StampedExactly(parse, s, step, s.cur);
    BareLaunchStamps(parse, s, step);
    assert t.log == s.log && t.history[s.cur].routed;
    assert !Resolved(t.log, 0, Here(s).id);
  }

  lemma StampsStayNoted(parse: Parser, s: Page, step: Step, past: set<nat>)
    requires Sound(parse) && Inv(parse, s) && Enabled(s, step) && !SilentReplay(s, step)
    requires StampsAreNoted(parse, s, past) && !LosesLink(parse, s, step)
    ensures StampsAreNoted(parse, Next(parse, s, step), past + WalkedFrom(s, step))
  {
    var p, t, all := Moved(s, step), Next(parse, s, step), past + WalkedFrom(s, step);
    NextKeepsMoved(parse, s, step, 0);
    forall k | 0 <= k < |t.history|
      ensures t.history[k].id in all ==> t.history[k].routed
      ensures t.history[k].routed && t.history[k].id !in all ==>
                Commands(parse, t.history[k].hash) ==> Resolved(t.log, 0, t.history[k].id)
    {
      NextKeepsMoved(parse, s, step, k);
      MovedEntries(s, step, k);
      if SwitchAway(s, step) {
        SwitchAwayStamps(parse, s, step);
      } else if t.history[k].routed && t.history[k].id !in all && Commands(parse, t.history[k].hash) {
        if !p.history[k].routed {
          StampedExactly(parse, s, step, k);
        }
        ResolvedStays(s.log, t.log, |s.log|, t.history[k].id);
      }
    }
  }

  /** No step of the run loses a link to a bare launch. */
  ghost predicate Steady(parse: Parser, s: Page, steps: seq<Step>)
    requires Sound(parse) && ArmTargetsTerminal(s) && Runs(parse, s, steps)
    decreases |steps|
  {
    steps == [] || (!LosesLink(parse, s, steps[0]) && Steady(parse, Next(parse, s, steps[0]), steps[1..]))
  }

  /** The entries whose links the user walked away from during the run. */
  ghost function Walked(parse: Parser, s: Page, steps: seq<Step>): set<nat>
    requires Sound(parse) && ArmTargetsTerminal(s) && Runs(parse, s, steps)
    decreases |steps|
  {
    if steps == [] then {} else WalkedFrom(s, steps[0]) + Walked(parse, Next(parse, s, steps[0]), steps[1..])
  }

  lemma {:induction false} RunKeepsStampsNoted(parse: Parser, s: Page, steps: seq<Step>, past: set<nat>)
    requires Sound(parse) && Inv(parse, s) && StampsAreNoted(parse, s, past)
    requires Runs(parse, s, steps) && Reported(parse, s, steps) && Steady(parse, s, steps)
    ensures StampsAreNoted(parse, After(parse, s, steps), past + Walked(parse, s, steps))
    decreases |steps|
  {
    if steps == [] {
      assert past + Walked(parse, s, steps) == past;
    } else {
      var t, more := Next(parse, s, steps[0]), past + WalkedFrom(s, steps[0]);
      InvariantExactly(parse, s, steps[0]);
      StampsStayNotedExactly(parse, s, steps[0], past);
      RunKeepsStampsNoted(parse, t, steps[1..], more);
      assert more + Walked(parse, t, steps[1..]) == past + Walked(parse, s, steps);
    }
  }

  /** Runs without launches of the bare app are such runs. */
  lemma {:induction false} PlainRunsAreSteady(parse: Parser, s: Page, steps: seq<Step>)
    requires Sound(parse) && ArmTargetsTerminal(s) && Runs(parse, s, steps)
    requires forall i :: 0 <= i < |steps| ==> !BareLaunch(steps[i])
    ensures Steady(parse, s, steps)
    decreases |steps|
  {
    if steps != [] {
      assert !BareLaunch(steps[0]);
      PlainRunsAreSteady(parse, Next(parse, s, steps[0]), steps[1..]);
    }
  }

  /** The entries already stamped when the run began: earlier documents resolved them. */
  function StampedIds(s: Page): set<nat> {
    set k | 0 <= k < |s.history| && s.history[k].routed :: s.history[k].id
  }

  /** The entry's link has been resolved: enacted or declared failed by a note, or walked away from. */
  ghost predicate Settled(parse: Parser, s: Page, steps: seq<Step>, entry: nat)
    requires Sound(parse) && ArmTargetsTerminal(s) && Runs(parse, s, steps)
  {
    Resolved(After(parse, s, steps).log, 0, entry) || entry in Walked(parse, s, steps)
  }

  lemma StartIsNoted(parse: Parser, s: Page)
    requires Start(s)
    ensures Inv(parse, s) && StampsAreNoted(parse, s, StampedIds(s))
  {
  }

  lemma StampSays(parse: Parser, t: Page, past: set<nat>, k: nat)
    requires ConsumedOnce(t) && StampsAreNoted(parse, t, past)
    requires k < |t.history| && Commands(parse, t.history[k].hash)
    ensures t.history[k].routed <==> Resolved(t.log, 0, t.history[k].id) || t.history[k].id in past
  {
  }

  /** Over any such run, a terminal link's entry is stamped exactly when its link has been resolved. */
  lemma StampedMeansResolved(parse: Parser, s: Page, steps: seq<Step>, k: nat)
    requires Sound(parse) && Start(s)
    requires Runs(parse, s, steps) && Reported(parse, s, steps) && Steady(parse, s, steps)
    requires var t := After(parse, s, steps);
             k < |t.history| && t.history[k].id !in StampedIds(s) && Commands(parse, t.history[k].hash)
    ensures var t := After(parse, s, steps);
            t.history[k].routed <==> Settled(parse, s, steps, t.history[k].id)
  {
    RunKeepsInv(parse, s, steps);
    StartIsNoted(parse, s);
    RunKeepsStampsNoted(parse, s, steps, StampedIds(s));
    StampSays(parse, After(parse, s, steps), StampedIds(s) + Walked(parse, s, steps), k);
  }

  /** So a reload never replays a resolved link and always retries an unresolved one. */
  lemma ReloadRetriesExactlyUnresolved(parse: Parser, s: Page, steps: seq<Step>, world: HostKey -> HostView)
    requires Sound(parse) && Start(s)
    requires Runs(parse, s, steps) && Reported(parse, s, steps) && Steady(parse, s, steps)
    requires var t := After(parse, s, steps); Here(t).id !in StampedIds(s) && Commands(parse, Here(t).hash)
    ensures var t := After(parse, s, steps);
            var u := Boot(parse, Unloaded(t, world), NoLaunch);
            if Settled(parse, s, steps, Here(t).id) then u == Unloaded(t, world)
            else u.pending == Some(Arm(t.nextArm, parse(Here(t).hash).link)) && u.log == t.log && u.history == t.history
  {
    var t := After(parse, s, steps);
    StampedMeansResolved(parse, s, steps, t.cur);
    if !Here(t).routed {
      ReloadRetriesUnresolved(parse, t, world, parse(Here(t).hash).link);
    }
  }

  // ---------- a link lost, and the way back to one superseded ----------

  /** A launch of the bare app while a link is armed drops it, shows nothing, and stamps its entry: the
      link is still in the bar, and no reload retries it. */
  lemma BareLaunchLosesTheLink(parse: Parser, s: Page, world: HostKey -> HostView)
    requires Sound(parse) && Inv(parse, s) && s.pending.Some?
    ensures var t := Next(parse, s, Outside(LaunchHash("")));
            var u := Next(parse, t, Reload(NoLaunch, world));
            && Here(t) == Here(s).(routed := true) && t.log == s.log && t.pending.None?
            && Dead(t, s.pending.value.id) && LosesLink(parse, s, Outside(LaunchHash("")))
            && u.pending.None? && u.log == s.log && u.history == t.history && u.active == s.active
  {
    var bare := Outside(LaunchHash(""));
    BareLaunchStamps(parse, s, bare);
    SupersededInSilence(parse, s, bare);
  }

  /** A link superseded in flight keeps its entry unstamped, so a traversal back to it arms it again. */
  lemma BackOntoSupersededArmsAgain(parse: Parser, s: Page, hash: string)
    requires Sound(parse) && Inv(parse, s) && s.pending.Some?
    requires hash != Here(s).hash && !Commands(parse, hash)
    ensures var t := Next(parse, s, Follow(hash));
            && t.pending.None? && Enabled(t, Traverse(s.cur)) && t.history[s.cur] == Here(s)
            && (var u := Next(parse, t, Traverse(s.cur));
                && u.pending == Some(Arm(s.nextArm, s.pending.value.route)) && u.intent == s.intent
                && u.active == s.active && Here(u) == Here(s) && u.log == t.log && Dead(u, s.pending.value.id))
  {
    OtherLinksResolveAtOnce(parse, s, hash);
    SupersededInSilence(parse, s, Follow(hash));
    var t := Next(parse, s, Follow(hash));
    var h := HashChanged(parse, t.(cur := s.cur));
    assert Routable(parse(Here(s).hash));
    EqualKeysAreEqual(s.active, HostOf(s.pending.value.route.host));
    DeadStaysDead(parse, t, Traverse(s.cur), s.pending.value.id);
    SettlesByTheFacts(h);
    SettlesByTheFacts(s);
  }
}
