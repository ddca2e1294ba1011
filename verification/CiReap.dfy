/** The CI janitor's sweep: which leftover daemons it selects, and which it signals. */
module CiReap {
  import opened Text

  datatype Proc = Proc(pid: nat, uid: nat, command: string)

  datatype BindPidRead = Bound(pid: nat) | Absent | Unreadable

  const PREFIXES: seq<string> := ["padi-dial-rt-", "padi-dial-sr-", "kolu-scroll-fifo-"]

  predicate NamesRuntimeRoot(command: string) {
    exists i :: 0 <= i < |PREFIXES| && Includes(command, PREFIXES[i])
  }

  /** `needle` followed by white space or the end of the command. */
  predicate IncludesWord(command: string, needle: string) {
    exists i :: 0 <= i <= |command| && StartsWith(command[i..], needle)
                && (i + |needle| == |command| || IsSpace(command[i + |needle|]))
  }

  predicate NamesDaemonBinary(command: string) {
    Includes(command, "kaval/src/bin.ts") || Includes(command, "padi/src/daemonBoot/bin.ts")
    || IncludesWord(command, "/bin/kaval") || IncludesWord(command, "/bin/padi")
  }

  predicate IsCiOwnedDaemon(command: string) {
    NamesRuntimeRoot(command) && NamesDaemonBinary(command)
  }

  predicate IsCiLeftoverHelper(command: string) {
    Includes(command, "node-pty spawn-helper") && NamesRuntimeRoot(command)
  }

  /** One listing of the process table with everything the selection reads while it walks it: for
      each row, what its bind pid read as, and whether that pid answered. Nothing ties one listing to
      the next. */
  datatype Listing = Listing(procs: seq<Proc>, bindAt: nat -> BindPidRead, liveAt: nat -> bool)

  /** Who is sweeping. */
  datatype Run = Run(self: nat, onlyUid: nat, thisRunBind: Option<nat>)

  predicate BindGone(run: Run, l: Listing, row: nat, bind: nat) {
    run.thisRunBind == Some(bind) || !l.liveAt(row)
  }

  /** A row the janitor may signal: this user's, not itself, a CI daemon or helper, whose bind pid is
      dead or this run's own; a daemon also when it has none. */
  predicate Doomed(run: Run, l: Listing, row: nat)
    requires row < |l.procs|
  {
    var proc := l.procs[row];
    && proc.uid == run.onlyUid && proc.pid != run.self
    && (IsCiLeftoverHelper(proc.command) || IsCiOwnedDaemon(proc.command))
    && match l.bindAt(row)
       case Unreadable => false
       case Bound(pid) => BindGone(run, l, row, pid)
       case Absent => !IsCiLeftoverHelper(proc.command)
  }

  /** The doomed rows' pids, in listing order. */
  ghost function DoomedPids(run: Run, l: Listing, n: nat): (pids: seq<nat>)
    requires n <= |l.procs|
  {
    if n == 0 then []
    else DoomedPids(run, l, n - 1) + (if Doomed(run, l, n - 1) then [l.procs[n - 1].pid] else [])
  }

  ghost predicate IsDoomed(run: Run, l: Listing, pid: nat) {
    exists row :: 0 <= row < |l.procs| && l.procs[row].pid == pid && Doomed(run, l, row)
  }

  lemma {:induction false} SelectedAreDoomed(run: Run, l: Listing, n: nat, pid: nat)
    requires n <= |l.procs|
    ensures pid in DoomedPids(run, l, n) <==>
            exists row :: 0 <= row < n && l.procs[row].pid == pid && Doomed(run, l, row)
  {
    if n > 0 {
      SelectedAreDoomed(run, l, n - 1, pid);
      if pid in DoomedPids(run, l, n - 1) {
        var row :| 0 <= row < n - 1 && l.procs[row].pid == pid && Doomed(run, l, row);
        assert row < n;
      }
    }
  }

  predicate DistinctPids(pids: seq<nat>) {
    forall i, j :: 0 <= i < j < |pids| ==> pids[i] != pids[j]
  }

  predicate DistinctProcs(procs: seq<Proc>) {
    forall i, j :: 0 <= i < j < |procs| ==> procs[i].pid != procs[j].pid
  }

  lemma {:induction false} SelectionKeepsDistinct(run: Run, l: Listing, n: nat)
    requires n <= |l.procs| && DistinctProcs(l.procs)
    ensures DistinctPids(DoomedPids(run, l, n))
  {
    if n > 0 {
      SelectionKeepsDistinct(run, l, n - 1);
      SelectedAreDoomed(run, l, n - 1, l.procs[n - 1].pid);
    }
  }

  method SelectBindPidGoneDaemons(run: Run, l: Listing) returns (selected: seq<nat>)
    ensures selected == DoomedPids(run, l, |l.procs|)
    ensures forall pid :: pid in selected <==> IsDoomed(run, l, pid)
  {
    selected := [];
    for row := 0 to |l.procs|
      invariant selected == DoomedPids(run, l, row)
    {
      var proc := l.procs[row];
      if proc.uid != run.onlyUid {
        continue;
      }
      if proc.pid == run.self {
        continue;
      }
      var helper := IsCiLeftoverHelper(proc.command);
      if !helper && !IsCiOwnedDaemon(proc.command) {
        continue;
      }
      var bind := l.bindAt(row);
      match bind {
        case Unreadable => continue;
        case Bound(pid) =>
          var bindGone := run.thisRunBind == Some(pid) || !l.liveAt(row);
          if !bindGone {
            continue;
          }
        case Absent =>
          if helper {
            continue;
          }
      }
      selected := selected + [proc.pid];
    }
    forall pid ensures pid in selected <==> IsDoomed(run, l, pid) {
      SelectedAreDoomed(run, l, |l.procs|, pid);
    }
  }

  // ---------- the sweep ----------

  datatype Outcome = AlreadyGone | Terminated | Killed | Survived

  /** The world the sweep runs in: the listing of its n-th look, and how the n-th signal ends. Both
      are arbitrary, so the table may change in any way between two looks. */
  datatype World = World(listing: nat -> Listing, outcome: nat -> Outcome)

  /** A signal sent: to whom, after which look, and how it ended. */
  datatype Signal = Signal(pid: nat, look: nat, outcome: Outcome)

  ghost function PidsWith(signals: seq<Signal>, survived: bool): (pids: seq<nat>)
  {
    if |signals| == 0 then []
    else
      var last := signals[|signals| - 1];
      PidsWith(signals[..|signals| - 1], survived) + (if last.outcome.Survived? == survived then [last.pid] else [])
  }

  ghost function Pids(signals: seq<Signal>): (pids: seq<nat>)
    ensures |pids| == |signals| && forall i :: 0 <= i < |pids| ==> pids[i] == signals[i].pid
  {
    seq(|signals|, i requires 0 <= i < |signals| => signals[i].pid)
  }

  /** Target `i` of the first look is looked at again in look `i + 1`; it is signalled exactly when
      that look still dooms it. */
  ghost function SignalsFor(run: Run, world: World, targets: seq<nat>, n: nat): (signals: seq<Signal>)
    requires n <= |targets|
    ensures |signals| <= n
  {
    if n == 0 then []
    else
      var before := SignalsFor(run, world, targets, n - 1);
      if IsDoomed(run, world.listing(n), targets[n - 1])
      then before + [Signal(targets[n - 1], n, world.outcome(|before|))]
      else before
  }

  ghost function Targets(run: Run, world: World): seq<nat> {
    DoomedPids(run, world.listing(0), |world.listing(0).procs|)
  }

  ghost function Sent(run: Run, world: World): seq<Signal> {
    SignalsFor(run, world, Targets(run, world), |Targets(run, world)|)
  }

  lemma OneSignalMore(sent: seq<Signal>, s: Signal)
    ensures PidsWith(sent + [s], true) == PidsWith(sent, true) + (if s.outcome.Survived? then [s.pid] else [])
    ensures PidsWith(sent + [s], false) == PidsWith(sent, false) + (if s.outcome.Survived? then [] else [s.pid])
  {
    assert (sent + [s])[..|sent|] == sent;
  }

  /** `looks` is how many listings the sweep took. */
  method SweepBindPidGoneDaemons(run: Run, world: World)
    returns (looks: nat, reaped: seq<nat>, survived: seq<nat>)
    ensures looks == |Targets(run, world)| + 1
    ensures reaped == PidsWith(Sent(run, world), false)
    ensures survived == PidsWith(Sent(run, world), true)
  {
    var targets := SelectBindPidGoneDaemons(run, world.listing(0));
    looks := |targets| + 1;
    var signals := 0;
    ghost var sent: seq<Signal> := [];
    reaped, survived := [], [];
    for i := 0 to |targets|
      invariant sent == SignalsFor(run, world, targets, i) && signals == |sent|
      invariant reaped == PidsWith(sent, false) && survived == PidsWith(sent, true)
    {
      // Looked at again immediately before the signal.
      var again := SelectBindPidGoneDaemons(run, world.listing(i + 1));
      if targets[i] !in again {
        continue;
      }
      var ended := world.outcome(signals);
      signals := signals + 1;
      OneSignalMore(sent, Signal(targets[i], i + 1, ended));
      sent := sent + [Signal(targets[i], i + 1, ended)];
      if ended == Survived {
        survived := survived + [targets[i]];
        continue;
      }
      reaped := reaped + [targets[i]];
    }
  }

  // ---------- what a sweep may do ----------

  lemma {:induction false} SignalsAreDoomed(run: Run, world: World, targets: seq<nat>, n: nat, k: nat)
    requires n <= |targets| && k < |SignalsFor(run, world, targets, n)|
    ensures var s := SignalsFor(run, world, targets, n)[k];
            1 <= s.look <= n && s.pid == targets[s.look - 1] && IsDoomed(run, world.listing(s.look), s.pid)
            && s.outcome == world.outcome(k)
  {
    if k < |SignalsFor(run, world, targets, n - 1)| {
      SignalsAreDoomed(run, world, targets, n - 1, k);
    }
  }

  lemma {:induction false} LooksAdvance(run: Run, world: World, targets: seq<nat>, n: nat, j: nat, k: nat)
    requires n <= |targets| && j < k < |SignalsFor(run, world, targets, n)|
    ensures SignalsFor(run, world, targets, n)[j].look < SignalsFor(run, world, targets, n)[k].look
  {
    if k < |SignalsFor(run, world, targets, n - 1)| {
      LooksAdvance(run, world, targets, n - 1, j, k);
    } else {
      SignalsAreDoomed(run, world, targets, n - 1, j);
    }
  }

  /** However the process table changes, every pid signalled was, in the listing taken just before, a
      row of this user's, not the janitor itself, that names a runtime root and whose bind pid is dead
      or this run's own (or a daemon's with none); and it was so in the first listing too. */
  lemma OnlyDoomedAreSignalled(run: Run, world: World, k: nat)
    requires k < |Sent(run, world)|
    ensures var s := Sent(run, world)[k];
            IsDoomed(run, world.listing(s.look), s.pid) && s.look > 0 && IsDoomed(run, world.listing(0), s.pid)
    ensures Sent(run, world)[k].pid != run.self
  {
    var targets := Targets(run, world);
    SignalsAreDoomed(run, world, targets, |targets|, k);
    SelectedAreDoomed(run, world.listing(0), |world.listing(0).procs|, Sent(run, world)[k].pid);
  }

  /** A process that stays a peer's in every look, or another user's, is never signalled. */
  lemma PeersAreSafe(run: Run, world: World, pid: nat)
    requires forall look :: !IsDoomed(run, world.listing(look), pid)
    ensures forall k :: 0 <= k < |Sent(run, world)| ==> Sent(run, world)[k].pid != pid
  {
    forall k | 0 <= k < |Sent(run, world)| ensures Sent(run, world)[k].pid != pid {
      OnlyDoomedAreSignalled(run, world, k);
    }
  }

  lemma {:induction false} EachIsCounted(signals: seq<Signal>, pid: nat)
    ensures pid in PidsWith(signals, false) || pid in PidsWith(signals, true) <==> pid in Pids(signals)
    ensures |PidsWith(signals, false)| + |PidsWith(signals, true)| == |signals|
  {
    if |signals| > 0 {
      var front, last := signals[..|signals| - 1], signals[|signals| - 1];
      EachIsCounted(front, pid);
      assert signals == front + [last];
      OneSignalMore(front, last);
      assert Pids(signals) == Pids(front) + [last.pid];
    }
  }

  lemma {:induction false} CountedOnce(signals: seq<Signal>, pid: nat)
    requires DistinctPids(Pids(signals))
    ensures !(pid in PidsWith(signals, false) && pid in PidsWith(signals, true))
    ensures DistinctPids(PidsWith(signals, false)) && DistinctPids(PidsWith(signals, true))
  {
    if |signals| > 0 {
      var front, last := signals[..|signals| - 1], signals[|signals| - 1];
      assert Pids(signals) == Pids(front) + [last.pid];
      CountedOnce(front, pid);
      EachIsCounted(front, last.pid);
      assert last.pid !in Pids(front);
    }
  }

  /** A signal was sent right after this look. */
  ghost predicate SentAfter(signals: seq<Signal>, look: nat) {
    exists k :: 0 <= k < |signals| && signals[k].look == look
  }

  lemma SentAfterOneMore(signals: seq<Signal>, s: Signal, look: nat)
    ensures SentAfter(signals + [s], look) <==> SentAfter(signals, look) || s.look == look
  {
    var all := signals + [s];
    assert all[|signals|] == s;
    if SentAfter(signals, look) {
      var k :| 0 <= k < |signals| && signals[k].look == look;
      assert all[k] == signals[k];
    }
  }

  /** A target of the first look is signalled, after its own second look, exactly when that look still
      dooms it. */
  lemma {:induction false} SignalledExactly(run: Run, world: World, targets: seq<nat>, n: nat, i: nat)
    requires i < n <= |targets|
    ensures IsDoomed(run, world.listing(i + 1), targets[i]) <==> SentAfter(SignalsFor(run, world, targets, n), i + 1)
  {
    var before := SignalsFor(run, world, targets, n - 1);
    SentAfterOneMore(before, Signal(targets[n - 1], n, world.outcome(|before|)), i + 1);
    if i < n - 1 {
      SignalledExactly(run, world, targets, n - 1, i);
    } else {
      forall k | 0 <= k < |before| ensures before[k].look != i + 1 {
        SignalsAreDoomed(run, world, targets, n - 1, k);
      }
    }
  }

  lemma PidOfLook(run: Run, world: World, i: nat, k: nat)
    requires DistinctProcs(world.listing(0).procs) && i < |Targets(run, world)| && k < |Sent(run, world)|
    ensures Sent(run, world)[k].pid == Targets(run, world)[i] <==> Sent(run, world)[k].look == i + 1
  {
    SelectionKeepsDistinct(run, world.listing(0), |world.listing(0).procs|);
    SignalsAreDoomed(run, world, Targets(run, world), |Targets(run, world)|, k);
  }

  /** No signal is withheld and none is doubled: with distinct pids in the first listing, a selected
      process still doomed at its second look gets exactly one signal, and any other none. */
  lemma StillDoomedAreSignalledOnce(run: Run, world: World, i: nat)
    requires DistinctProcs(world.listing(0).procs) && i < |Targets(run, world)|
    ensures var pid, pids := Targets(run, world)[i], Pids(Sent(run, world));
            (pid in pids <==> IsDoomed(run, world.listing(i + 1), pid)) && DistinctPids(pids)
  {
    var targets, sent := Targets(run, world), Sent(run, world);
    SignalsAreDistinct(run, world);
    SignalledExactly(run, world, targets, |targets|, i);
    if targets[i] in Pids(sent) {
      var k :| 0 <= k < |Pids(sent)| && Pids(sent)[k] == targets[i];
      PidOfLook(run, world, i, k);
    }
    if SentAfter(sent, i + 1) {
      var k :| 0 <= k < |sent| && sent[k].look == i + 1;
      PidOfLook(run, world, i, k);
      assert Pids(sent)[k] == targets[i];
    }
  }

  lemma SignalsAreDistinct(run: Run, world: World)
    requires DistinctProcs(world.listing(0).procs)
    ensures DistinctPids(Pids(Sent(run, world)))
  {
    var targets, sent := Targets(run, world), Sent(run, world);
    SelectionKeepsDistinct(run, world.listing(0), |world.listing(0).procs|);
    forall j, k | 0 <= j < k < |sent| ensures sent[j].pid != sent[k].pid {
      SignalsAreDoomed(run, world, targets, |targets|, j);
      SignalsAreDoomed(run, world, targets, |targets|, k);
      LooksAdvance(run, world, targets, |targets|, j, k);
    }
  }

  /** With distinct pids in the first listing, the two lists a sweep answers are disjoint, name nobody
      twice, come only from the first selection, and together name exactly those signalled. */
  lemma SweepAccounts(run: Run, world: World, pid: nat)
    requires DistinctProcs(world.listing(0).procs)
    ensures var reaped, survived := PidsWith(Sent(run, world), false), PidsWith(Sent(run, world), true);
            && !(pid in reaped && pid in survived)
            && DistinctPids(reaped) && DistinctPids(survived)
            && (pid in reaped || pid in survived <==> pid in Pids(Sent(run, world)))
            && (pid in reaped || pid in survived ==> pid in Targets(run, world))
            && |reaped| + |survived| == |Sent(run, world)|
  {
    var targets, sent := Targets(run, world), Sent(run, world);
    SignalsAreDistinct(run, world);
    CountedOnce(sent, pid);
    EachIsCounted(sent, pid);
    if pid in Pids(sent) {
      var k :| 0 <= k < |sent| && sent[k].pid == pid;
      SignalsAreDoomed(run, world, targets, |targets|, k);
    }
  }

  // ---------- who may be signalled, in plain terms ----------

  /** The command line names one of the three kinds of runtime root CI makes. */
  predicate NamesCiRoot(command: string) {
    Includes(command, "padi-dial-rt-") || Includes(command, "padi-dial-sr-") || Includes(command, "kolu-scroll-fifo-")
  }

  lemma RootsExactly(command: string)
    ensures NamesRuntimeRoot(command) <==> NamesCiRoot(command)
  {
    if NamesCiRoot(command) {
      assert Includes(command, PREFIXES[0]) || Includes(command, PREFIXES[1]) || Includes(command, PREFIXES[2]);
    }
  }

  /** The word stands between `a` and `b`, before white space or at the end. */
  predicate StandsIn(command: string, a: string, word: string, b: string) {
    command == a + word + b && (b == "" || IsSpace(b[0]))
  }

  lemma WordExactly(command: string, word: string)
    ensures IncludesWord(command, word) <==> exists a, b :: StandsIn(command, a, word, b)
  {
    if IncludesWord(command, word) {
      var i :| 0 <= i <= |command| && StartsWith(command[i..], word)
               && (i + |word| == |command| || IsSpace(command[i + |word|]));
      assert StandsIn(command, command[..i], word, command[i + |word|..]);
    }
    forall a, b | StandsIn(command, a, word, b) ensures IncludesWord(command, word) {
      WordFound(a, word, b);
    }
  }

  lemma WordFound(a: string, word: string, b: string)
    requires b == "" || IsSpace(b[0])
    ensures IncludesWord(a + word + b, word)
  {
    var command := a + word + b;
    assert command[|a|..] == word + b;
    StartsWithExactly(command, word, b);
    assert StartsWith(command[|a|..], word);
    assert b != "" ==> command[|a| + |word|] == b[0];
  }

  /** A node-pty helper, or a daemon run from its source or its wrapper. */
  predicate RunsCiDaemon(command: string) {
    Includes(command, "kaval/src/bin.ts") || Includes(command, "padi/src/daemonBoot/bin.ts")
    || IncludesWord(command, "/bin/kaval") || IncludesWord(command, "/bin/padi")
  }

  predicate RunsCiHelper(command: string) {
    Includes(command, "node-pty spawn-helper")
  }

  /** What the janitor may signal: a process of its own user, not itself, that names a CI root and runs a
      daemon or a helper; its bind pid is dead or this run's own, or it has none and is no helper. */
  predicate IsLeftover(run: Run, proc: Proc, bind: BindPidRead, bindLives: bool) {
    proc.uid == run.onlyUid && proc.pid != run.self && NamesCiRoot(proc.command)
    && (RunsCiDaemon(proc.command) || RunsCiHelper(proc.command))
    && (bind.Bound? ==> run.thisRunBind == Some(bind.pid) || !bindLives)
    && (bind.Absent? ==> !RunsCiHelper(proc.command))
    && !bind.Unreadable?
  }

  lemma DoomedIsLeftover(run: Run, l: Listing, row: nat)
    requires row < |l.procs|
    ensures Doomed(run, l, row) <==> IsLeftover(run, l.procs[row], l.bindAt(row), l.liveAt(row))
  {
    RootsExactly(l.procs[row].command);
  }

  /** Every signal goes to a pid whose row, in the look just before, was such a leftover. */
  lemma OnlyLeftoversAreSignalled(run: Run, world: World, k: nat) returns (row: nat)
    requires k < |Sent(run, world)|
    ensures var s := Sent(run, world)[k];
            var l := world.listing(s.look);
            row < |l.procs| && l.procs[row].pid == s.pid
            && IsLeftover(run, l.procs[row], l.bindAt(row), l.liveAt(row))
  {
    var s := Sent(run, world)[k];
    OnlyDoomedAreSignalled(run, world, k);
    var l := world.listing(s.look);
    row :| 0 <= row < |l.procs| && l.procs[row].pid == s.pid && Doomed(run, l, row);
    DoomedIsLeftover(run, l, row);
  }

  /** So a process whose command never names a CI root, a production daemon say, is never signalled,
      however the table changes. */
  lemma ProductionIsSafe(run: Run, world: World, pid: nat)
    requires forall look, row :: 0 <= row < |world.listing(look).procs| && world.listing(look).procs[row].pid == pid ==>
                                   !NamesCiRoot(world.listing(look).procs[row].command)
    ensures pid !in Pids(Sent(run, world))
  {
    if pid in Pids(Sent(run, world)) {
      var k :| 0 <= k < |Sent(run, world)| && Sent(run, world)[k].pid == pid;
      var row := OnlyLeftoversAreSignalled(run, world, k);
      assert false;
    }
  }

  /** And a leftover is selected: such as this user's `…/bin/padi` or `…/bin/kaval`, with arguments or
      without, that names a root of CI's and has no bind pid. */
  lemma LeftoversAreSelected(run: Run, l: Listing, row: nat, dir: string, args: string)
    requires row < |l.procs| && l.procs[row].uid == run.onlyUid && l.procs[row].pid != run.self
    requires l.procs[row].command == dir + "/bin/padi" + args || l.procs[row].command == dir + "/bin/kaval" + args
    requires args == "" || IsSpace(args[0])
    requires NamesCiRoot(l.procs[row].command) && !RunsCiHelper(l.procs[row].command) && l.bindAt(row).Absent?
    ensures IsDoomed(run, l, l.procs[row].pid)
    ensures l.procs[row].pid in DoomedPids(run, l, |l.procs|)
  {
    WordFound(dir, "/bin/padi", args);
    WordFound(dir, "/bin/kaval", args);
    assert RunsCiDaemon(l.procs[row].command);
    DoomedIsLeftover(run, l, row);
    SelectedAreDoomed(run, l, |l.procs|, l.procs[row].pid);
  }
}
