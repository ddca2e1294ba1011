/**
 The deep-link router as a state machine: what each handler and each effect does to the page.

 A `Page` is everything the router reads or writes. The browser keeps `history`, `cur` and the
 active host across a reload; `pending` and `intent` die with the document. The ids and the log are
 bookkeeping of the model: an entry's id names one loading of that history entry (a replaced entry
 is a new one), an arm's id is the object identity of the route `pending` holds, and the log lists
 what the user was shown.
 */
module RouterSpec {
  import opened Text
  import opened HostKeys
  import opened DeepLinks

  datatype Entry = Entry(id: nat, hash: string, routed: bool)

  datatype Arm = Arm(id: nat, route: DeepLink)

  datatype Git = Unresolved | NoRepo | Repo

  /** What a host's subscriptions say: its terminal list, the composed records, and whether a
      view action called by `enact` would throw. */
  datatype HostView = HostView(
    listPending: bool,
    listError: bool,
    authoritative: bool,
    listed: set<string>,
    records: map<string, Git>,
    viewThrows: bool)

  datatype Fault = ListError | Gone | NotARepo | RepoNeverResolved | DaemonDown | Unreachable

  datatype Note =
    | Enacted(arm: nat, entry: nat, route: DeepLink)
    | EnactThrew(arm: nat, entry: nat, route: DeepLink)
    | Failed(arm: nat, entry: nat, fault: Fault)
    | InvalidLinkToast
    | BadLaunchToast
    | SettingsOpened
  {
    /** The notes that end an armed route. */
    predicate Ends() {
      Enacted? || EnactThrew? || Failed?
    }

    predicate Attempts() {
      Enacted? || EnactThrew?
    }

    /** The notes that resolve an entry's command for good; a throw leaves it to be tried again. */
    predicate Consumes() {
      Enacted? || Failed?
    }
  }

  datatype PageData = PageData(
    history: seq<Entry>,
    cur: nat,
    pending: Option<Arm>,
    intent: Option<string>,
    active: HostKey,
    hosts: HostKey -> HostView,
    nextEntry: nat,
    nextArm: nat,
    log: seq<Note>)

  type Page = s: PageData | s.cur < |s.history|
    witness PageData([Entry(0, "", false)], 0, None, None, Local,
                     (k: HostKey) => HostView(true, false, false, {}, map[], false), 1, 0, [])

  function Here(s: Page): Entry {
    s.history[s.cur]
  }

  function View(s: Page): HostView {
    s.hosts(s.active)
  }

  /** What a parser must promise the router: hosts it can decode, and no route in an empty hash. */
  type Parser = string -> Parsed

  predicate Routable(link: Parsed) {
    link.Link? && !link.link.SettingsLink? ==> IsEncodedHostKey(link.link.host)
  }

  ghost predicate Sound(parse: Parser) {
    (forall hash :: Routable(parse(hash))) && parse("").NoLink?
  }

  // ---------- the small writers ----------

  function Stamp(s: Page): Page {
    s.(history := s.history[s.cur := Here(s).(routed := true)])
  }

  function Say(s: Page, note: Note): Page {
    s.(log := s.log + [note])
  }

  /** Disarming clears the route and its focus intent together; with nothing armed it does nothing. */
  function Disarm(s: Page): Page {
    if s.pending.None? then s else s.(pending := None, intent := None)
  }

  function DisarmResolved(s: Page): Page {
    Stamp(Disarm(s))
  }

  function RouteToTerminal(s: Page, route: DeepLink): Page
    requires route.TargetsTerminal() && IsEncodedHostKey(route.host)
  {
    s.(active := HostOf(route.host),
       intent := Some(route.terminalId),
       pending := Some(Arm(s.nextArm, route)),
       nextArm := s.nextArm + 1)
  }

  // ---------- routing a parsed link ----------

  function Navigate(s: Page, link: Parsed): Page
    requires Routable(link)
  {
    var t := Disarm(s);
    match link
    case NoLink => Stamp(t)
    case Invalid(_) => Stamp(Say(t, InvalidLinkToast))
    case Link(l) =>
      if l.SettingsLink? then Stamp(Say(t, SettingsOpened))
      else if l.HostLink? then Stamp(t.(active := HostOf(l.host)))
      else RouteToTerminal(t, l)
  }

  // ---------- the settle effect and the backstop ----------

  datatype Verdict = Wait | Fail(fault: Fault) | Enact

  function VerdictOf(view: HostView, route: DeepLink): Verdict
    requires route.TargetsTerminal()
  {
    var id := route.terminalId;
    if view.listPending then Wait
    else if view.listError then Fail(ListError)
    else if id !in view.listed then (if view.authoritative then Fail(Gone) else Wait)
    else if id !in view.records then Wait
    else if route.CodeLink? && view.records[id].Unresolved? then Wait
    else if route.CodeLink? && view.records[id].NoRepo? then Fail(NotARepo)
    else Enact
  }

  predicate ArmTargetsTerminal(s: Page) {
    s.pending.Some? ==> s.pending.value.route.TargetsTerminal()
  }

  function Settle(s: Page): Page
    requires ArmTargetsTerminal(s)
  {
    match s.pending
    case None => s
    case Some(a) =>
      if EncodeHostKey(s.active) != a.route.host then DisarmResolved(s)
      else
        match VerdictOf(View(s), a.route)
        case Wait => s
        case Fail(fault) => Say(DisarmResolved(s), Failed(a.id, Here(s).id, fault))
        case Enact =>
          if View(s).viewThrows
          then Say(s.(pending := None), EnactThrew(a.id, Here(s).id, a.route))
          else Stamp(Say(s.(pending := None), Enacted(a.id, Here(s).id, a.route)))
  }

  function TimeoutFault(view: HostView, route: DeepLink): Fault
    requires route.TargetsTerminal()
  {
    var id := route.terminalId;
    if id in view.records && route.CodeLink? && view.records[id].Unresolved? then RepoNeverResolved
    else if !view.authoritative then DaemonDown
    else Unreachable
  }

  function BackstopFires(s: Page): Page
    requires ArmTargetsTerminal(s)
  {
    match s.pending
    case None => s
    case Some(a) => Say(DisarmResolved(s), Failed(a.id, Here(s).id, TimeoutFault(View(s), a.route)))
  }

  // ---------- the entry points ----------

  function Replace(s: Page, hash: string): Page {
    s.(history := s.history[s.cur := Entry(s.nextEntry, hash, false)], nextEntry := s.nextEntry + 1)
  }

  /** A hash from outside the address bar replaces the current entry, unless it is empty. */
  function NavigateFromExternal(parse: Parser, s: Page, hash: string): Page
    requires Sound(parse)
  {
    Navigate(if hash != "" then Replace(s, hash) else s, parse(hash))
  }

  datatype Launch = NoLaunch | LaunchWithoutUrl | MalformedLaunch | LaunchHash(hash: string)

  function Deliver(parse: Parser, s: Page, launch: Launch): Page
    requires Sound(parse)
  {
    match launch
    case NoLaunch => s
    case LaunchWithoutUrl => s
    case MalformedLaunch => Say(s, BadLaunchToast)
    case LaunchHash(hash) => NavigateFromExternal(parse, s, hash)
  }

  /** The boot parse runs only when no queued launch was handled and the entry is not consumed. */
  function Boot(parse: Parser, s: Page, launch: Launch): Page
    requires Sound(parse)
  {
    if !launch.NoLaunch? then Deliver(parse, s, launch)
    else if Here(s).routed then s
    else Navigate(s, parse(Here(s).hash))
  }

  function HashChanged(parse: Parser, s: Page): Page
    requires Sound(parse)
  {
    if Here(s).routed then Disarm(s) else Navigate(s, parse(Here(s).hash))
  }

  function PushEntry(s: Page, hash: string): Page {
    s.(history := s.history[..s.cur + 1] + [Entry(s.nextEntry, hash, false)],
       cur := s.cur + 1,
       nextEntry := s.nextEntry + 1)
  }

  // ---------- steps and runs ----------

  datatype Step =
    | Follow(hash: string)                            // a fresh in-page navigation
    | FollowAgain                                     // a link to the hash already shown
    | Traverse(to: nat)                               // back or forward, to any entry
    | Outside(launch: Launch)                         // the preview bridge, or a launch of an open page
    | SwitchHost(host: HostKey)                       // the host chips, or the host reconcile
    | WorldMoves(hosts: HostKey -> HostView)
    | Backstop
    | Reload(queued: Launch, world: HostKey -> HostView)

  /** A fresh navigation shows another hash; a traversal moves to another entry. */
  predicate Enabled(s: Page, step: Step) {
    match step
    case Follow(hash) => hash != Here(s).hash
    case Traverse(to) => to < |s.history| && to != s.cur
    case _ => true
  }

  /** What the handler of one step does. The browser reports a traversal only when it changes the hash,
      and a link to the hash already shown replaces the entry, stamp and all, without a report. */
  function Handle(parse: Parser, s: Page, step: Step): Page
    requires Sound(parse) && Enabled(s, step) && ArmTargetsTerminal(s)
  {
    match step
    case Follow(hash) => HashChanged(parse, PushEntry(s, hash))
    case FollowAgain => Replace(s, Here(s).hash)
    case Traverse(to) =>
      var t := s.(cur := to);
      if Here(t).hash == Here(s).hash then t else HashChanged(parse, t)
    case Outside(launch) => Deliver(parse, s, launch)
    case SwitchHost(host) => s.(active := host)
    case WorldMoves(hosts) => s.(hosts := hosts)
    case Backstop => BackstopFires(s)
    case Reload(queued, world) => Boot(parse, s.(pending := None, intent := None, hosts := world), queued)
  }

  /** One step: its handler, then the settle effect. */
  function Next(parse: Parser, s: Page, step: Step): Page
    requires Sound(parse) && Enabled(s, step) && ArmTargetsTerminal(s)
    ensures ArmTargetsTerminal(Next(parse, s, step))
  {
    Settle(Handle(parse, s, step))
  }
}
