/** The CI janitor's whole run: the sweep, then the runtime roots nobody uses any more. */
module CiRoots {
  import opened Text
  import opened CiReap

  datatype DirEnt = DirEnt(name: string, isDirectory: bool)

  datatype ReadDir = Entries(ents: seq<DirEnt>) | NotFound | ReadFails

  /** What the disk and the kernel answer, by entry: the text of a FIFO's owner file, whether a pid
      read there answers, whether the kill of a row got through, and whether removing it throws. */
  datatype Disk = Disk(
    dir: ReadDir,
    owner: nat -> Option<string>,
    answers: (nat, nat) -> bool,
    delivered: (nat, nat) -> bool,
    removeThrows: nat -> bool)

  /** What one removal pass sees. Look 0 judges the daemons' roots; each condemned FIFO takes the next
      look for its readers. Nothing ties one look to the next. */
  datatype Scene = Scene(root: string, disk: Disk, look: nat -> seq<Proc>, self: nat)
  {
    function Ents(): seq<DirEnt> {
      if disk.dir.Entries? then disk.dir.ents else []
    }

    function PathOf(i: nat): string
      requires i < |Ents()|
    {
      root + "/" + Ents()[i].name
    }
  }

  predicate IsRuntimeRoot(ent: DirEnt) {
    ent.isDirectory
    && (StartsWith(ent.name, PREFIXES[0]) || StartsWith(ent.name, PREFIXES[1]) || StartsWith(ent.name, PREFIXES[2]))
  }

  predicate IsFifo(ent: DirEnt) {
    StartsWith(ent.name, PREFIXES[2])
  }

  /** The pid an owner file holds: a positive numeral with no leading zero, white space around it aside. */
  function OwnerPid(text: Option<string>): Option<nat> {
    if text.None? then None
    else
      var raw := Trim(text.value);
      if IsNumeral(raw) && raw[0] != '0' then Some(NumeralValue(raw)) else None
  }

  predicate OwnerLives(scene: Scene, i: nat) {
    var owner := OwnerPid(scene.disk.owner(i));
    owner.Some? && scene.disk.answers(i, owner.value)
  }

  predicate Named(procs: seq<Proc>, path: string) {
    exists row :: 0 <= row < |procs| && Includes(procs[row].command, path)
  }

  /** A runtime root to remove: a FIFO's whose owner is dead or unknown, a daemon's that no command
      line of look 0 names. */
  predicate Condemned(scene: Scene, i: nat)
    requires i < |scene.Ents()|
  {
    var ent := scene.Ents()[i];
    IsRuntimeRoot(ent)
    && if IsFifo(ent) then !OwnerLives(scene, i) else !Named(scene.look(0), scene.PathOf(i))
  }

  // ---------- FIFO readers ----------

  /** What comes before the first white space. */
  function FirstWord(s: string): string {
    if s == "" || IsSpace(s[0]) then "" else [s[0]] + FirstWord(s[1..])
  }

  predicate IsSlash(c: char) {
    c == '/' || c == '\\'
  }

  /** What follows the last slash, of either kind. */
  function BaseName(s: string): string {
    if s == "" || IsSlash(s[|s| - 1]) then "" else BaseName(s[..|s| - 1]) + [s[|s| - 1]]
  }

  /** The first word is `cat` or a path of it. */
  predicate IsCat(command: string) {
    BaseName(FirstWord(Trim(command))) == "cat"
  }

  lemma {:induction false} BaseNameEnds(s: string)
    ensures var base := BaseName(s);
            && |base| <= |s| && base == s[|s| - |base|..]
            && (forall k :: 0 <= k < |base| ==> !IsSlash(base[k]))
            && (|base| < |s| ==> IsSlash(s[|s| - |base| - 1]))
  {
    if s != "" && !IsSlash(s[|s| - 1]) {
      var front, last := s[..|s| - 1], s[|s| - 1];
      BaseNameEnds(front);
      var start := |front| - |BaseName(front)|;
      assert s[start..] == front[start..] + [last];
      assert start > 0 ==> s[start - 1] == front[start - 1];
    }
  }

  lemma {:induction false} BaseNameOf(dir: string, base: string)
    requires forall k :: 0 <= k < |base| ==> !IsSlash(base[k])
    requires dir == "" || IsSlash(dir[|dir| - 1])
    ensures BaseName(dir + base) == base
  {
    if base == "" {
      assert dir + base == dir;
    } else {
      var last := |base| - 1;
      BaseNameOf(dir, base[..last]);
      assert (dir + base)[..|dir + base| - 1] == dir + base[..last];
      assert base == base[..last] + [base[last]];
    }
  }

  /** The word is `base`, or a path that ends in it. */
  predicate IsPathTo(word: string, base: string) {
    |base| <= |word| && word[|word| - |base|..] == base
    && (|base| < |word| ==> IsSlash(word[|word| - |base| - 1]))
  }

  /** A word's base name is the one ending of it that is free of slashes and follows one, or is the
      whole word. */
  lemma BaseNameIs(word: string, base: string)
    requires forall k :: 0 <= k < |base| ==> !IsSlash(base[k])
    ensures BaseName(word) == base <==> IsPathTo(word, base)
  {
    BaseNameEnds(word);
    if IsPathTo(word, base) {
      var dir := word[..|word| - |base|];
      BaseNameOf(dir, base);
      assert dir + base == word;
    }
  }

  /** A row whose `cat` reads the trigger of FIFO root `i`. */
  predicate Reads(scene: Scene, i: nat, proc: Proc)
    requires i < |scene.Ents()|
  {
    Includes(proc.command, scene.PathOf(i) + "/trigger") && IsCat(proc.command) && proc.pid != scene.self
  }

  /** Row `row` of a look is a reader of root `i`, and the kill sent to it got through. */
  predicate Hit(scene: Scene, i: nat, procs: seq<Proc>, row: nat)
    requires i < |scene.Ents()| && row < |procs|
  {
    Reads(scene, i, procs[row]) && scene.disk.delivered(i, row)
  }

  /** The pids of the rows that `hit` marks. */
  ghost function Marked(procs: seq<Proc>, hit: seq<bool>): (pids: seq<nat>)
    requires |hit| <= |procs|
  {
    if hit == [] then []
    else
      var row := |hit| - 1;
      Marked(procs, hit[..row]) + (if hit[row] then [procs[row].pid] else [])
  }

  lemma {:induction false} MarkedRows(procs: seq<Proc>, hit: seq<bool>, pid: nat)
    requires |hit| <= |procs|
    ensures pid in Marked(procs, hit) <==> exists row :: 0 <= row < |hit| && hit[row] && procs[row].pid == pid
  {
    if hit != [] {
      var front := hit[..|hit| - 1];
      MarkedRows(procs, front, pid);
      if pid in Marked(procs, front) {
        var row :| 0 <= row < |front| && front[row] && procs[row].pid == pid;
        assert hit[row];
      }
    }
  }

  ghost function Hits(scene: Scene, i: nat, procs: seq<Proc>): (hit: seq<bool>)
    requires i < |scene.Ents()|
    ensures |hit| == |procs| && forall row :: 0 <= row < |procs| ==> hit[row] == Hit(scene, i, procs, row)
  {
    seq(|procs|, row requires 0 <= row < |procs| => Hit(scene, i, procs, row))
  }

  method KillScrollFifoReaders(scene: Scene, i: nat, procs: seq<Proc>) returns (killed: seq<nat>)
    requires i < |scene.Ents()|
    ensures killed == Marked(procs, Hits(scene, i, procs))
  {
    ghost var hit := Hits(scene, i, procs);
    killed := [];
    for row := 0 to |procs|
      invariant killed == Marked(procs, hit[..row])
    {
      assert hit[..row + 1][..row] == hit[..row];
      var proc := procs[row];
      if !Includes(proc.command, scene.PathOf(i) + "/trigger") || !IsCat(proc.command) {
        continue;
      }
      if proc.pid == scene.self {
        continue;
      }
      if scene.disk.delivered(i, row) {
        killed := killed + [proc.pid];
      }
    }
    assert hit[..|procs|] == hit;
  }

  // ---------- the removal pass ----------

  /** A kill that got through: whose, and for which entry. */
  datatype Kill = Kill(pid: nat, ent: nat)

  /** The paths condemned among the first `n` entries, in directory order. */
  ghost function Cleared(scene: Scene, n: nat): (paths: seq<string>)
    requires n <= |scene.Ents()|
  {
    if n == 0 then []
    else Cleared(scene, n - 1) + (if Condemned(scene, n - 1) then [scene.PathOf(n - 1)] else [])
  }

  /** How many looks the first `n` entries take. */
  ghost function Looks(scene: Scene, n: nat): (looks: nat)
    requires n <= |scene.Ents()|
    ensures 1 <= looks <= n + 1
  {
    if n == 0 then 1
    else Looks(scene, n - 1) + (if Condemned(scene, n - 1) && IsFifo(scene.Ents()[n - 1]) then 1 else 0)
  }

  ghost function Kills(scene: Scene, n: nat): (kills: seq<Kill>)
    requires n <= |scene.Ents()|
  {
    if n == 0 then []
    else Kills(scene, n - 1) + KillsFor(scene, n - 1)
  }

  ghost function KillsFor(scene: Scene, i: nat): (kills: seq<Kill>)
    requires i < |scene.Ents()|
  {
    if Condemned(scene, i) && IsFifo(scene.Ents()[i])
    then AsKills(Marked(scene.look(Looks(scene, i)), Hits(scene, i, scene.look(Looks(scene, i)))), i)
    else []
  }

  ghost function AsKills(pids: seq<nat>, i: nat): (kills: seq<Kill>)
    ensures |kills| == |pids| && forall k :: 0 <= k < |pids| ==> kills[k] == Kill(pids[k], i)
  {
    seq(|pids|, k requires 0 <= k < |pids| => Kill(pids[k], i))
  }

  /** The pass throws: the directory cannot be read, or a condemned root cannot be removed. */
  ghost predicate Throws(scene: Scene) {
    scene.disk.dir.ReadFails?
    || exists i :: 0 <= i < |scene.Ents()| && Condemned(scene, i) && scene.disk.removeThrows(i)
  }

  datatype Removal = Removed(paths: seq<string>) | Threw

  datatype Fate = Kept | Gone | Stuck

  /** One entry of the directory: judged, its readers killed where it is a FIFO, and removed. */
  method ClearEntry(scene: Scene, i: nat, procs: seq<Proc>, looks: nat)
    returns (fate: Fate, next: nat, ghost kills: seq<Kill>)
    requires i < |scene.Ents()| && procs == scene.look(0) && looks == Looks(scene, i)
    ensures fate.Kept? <==> !Condemned(scene, i)
    ensures fate.Stuck? <==> Condemned(scene, i) && scene.disk.removeThrows(i)
    ensures next == Looks(scene, i + 1) && kills == KillsFor(scene, i)
  {
    var ent := scene.Ents()[i];
    next, kills := looks, [];
    if !IsRuntimeRoot(ent) {
      return Kept, next, kills;
    }
    if IsFifo(ent) {
      if OwnerLives(scene, i) {
        return Kept, next, kills;
      }
      var killed := KillScrollFifoReaders(scene, i, scene.look(looks));
      kills := AsKills(killed, i);
      next := looks + 1;
    } else if Named(procs, scene.PathOf(i)) {
      return Kept, next, kills;
    }
    fate := if scene.disk.removeThrows(i) then Stuck else Gone;
  }

  /** `kills` is the log of kills that got through, up to entry `done`: all of them, or the one that threw. */
  method RemoveThisRunRuntimeRoots(scene: Scene)
    returns (removal: Removal, ghost kills: seq<Kill>, ghost done: nat)
    ensures removal.Threw? <==> Throws(scene)
    ensures removal.Removed? ==> removal.paths == Cleared(scene, |scene.Ents()|)
    ensures done <= |scene.Ents()| && kills == Kills(scene, done)
    ensures removal.Removed? ==> done == |scene.Ents()|
  {
    kills, done := [], 0;
    if scene.disk.dir.ReadFails? {
      return Threw, kills, done;
    }
    var removed := [];
    var procs := scene.look(0);
    var looks := 1;
    for i := 0 to |scene.Ents()|
      invariant removed == Cleared(scene, i) && looks == Looks(scene, i)
      invariant kills == Kills(scene, i) && done == i
      invariant forall k :: 0 <= k < i && Condemned(scene, k) ==> !scene.disk.removeThrows(k)
    {
      var fate;
      ghost var more;
      fate, looks, more := ClearEntry(scene, i, procs, looks);
      kills, done := kills + more, i + 1;
      match fate {
        case Kept =>
        case Stuck => return Threw, kills, done;
        case Gone => removed := removed + [scene.PathOf(i)];
      }
    }
    return Removed(removed), kills, done;
  }

  // ---------- what a pass may do ----------

  /** The paths removed are exactly those of condemned entries. */
  lemma {:induction false} ClearedAreCondemned(scene: Scene, n: nat, path: string)
    requires n <= |scene.Ents()|
    ensures path in Cleared(scene, n) <==> exists i :: 0 <= i < n && Condemned(scene, i) && scene.PathOf(i) == path
  {
    if n > 0 {
      ClearedAreCondemned(scene, n - 1, path);
      if path in Cleared(scene, n - 1) {
        var i :| 0 <= i < n - 1 && Condemned(scene, i) && scene.PathOf(i) == path;
        assert i < n;
      }
    }
  }

  lemma PathsDiffer(scene: Scene, i: nat, j: nat)
    requires i < |scene.Ents()| && j < |scene.Ents()|
    ensures scene.PathOf(i) == scene.PathOf(j) <==> scene.Ents()[i].name == scene.Ents()[j].name
  {
    assert scene.PathOf(i)[|scene.root| + 1..] == scene.Ents()[i].name;
    assert scene.PathOf(j)[|scene.root| + 1..] == scene.Ents()[j].name;
  }

  /** In use means kept: a daemon's root that any command line names, or a FIFO's whose owner lives,
      is not removed; nor is anything that is no runtime root. Everything else is. */
  lemma RemovedExactlyIfUnused(scene: Scene, i: nat)
    requires i < |scene.Ents()|
    requires forall j, k :: 0 <= j < k < |scene.Ents()| ==> scene.Ents()[j].name != scene.Ents()[k].name
    ensures scene.PathOf(i) in Cleared(scene, |scene.Ents()|) <==>
            var ent := scene.Ents()[i];
            IsRuntimeRoot(ent) && if IsFifo(ent) then !OwnerLives(scene, i) else !Named(scene.look(0), scene.PathOf(i))
  {
    ClearedAreCondemned(scene, |scene.Ents()|, scene.PathOf(i));
    forall j | 0 <= j < |scene.Ents()| && scene.PathOf(j) == scene.PathOf(i) ensures j == i {
      PathsDiffer(scene, i, j);
    }
  }

  /** The kill hit a row of the look taken for its root: a `cat` reading that root's trigger. */
  ghost predicate HitReader(scene: Scene, kill: Kill)
    requires kill.ent < |scene.Ents()|
  {
    var procs := scene.look(Looks(scene, kill.ent));
    exists row :: 0 <= row < |procs| && procs[row].pid == kill.pid && Reads(scene, kill.ent, procs[row])
  }

  lemma KillsOfOne(scene: Scene, i: nat, kill: Kill)
    requires i < |scene.Ents()| && kill in KillsFor(scene, i)
    ensures kill.ent == i && Condemned(scene, i) && IsFifo(scene.Ents()[i])
    ensures HitReader(scene, kill) && kill.pid != scene.self
  {
    var procs := scene.look(Looks(scene, i));
    MarkedRows(procs, Hits(scene, i, procs), kill.pid);
  }

  /** Every pid killed was, in the look taken for that root, a `cat` reading the trigger of a FIFO
      whose owner is dead or unknown, and not the janitor. */
  lemma {:induction false} OnlyReadersAreKilled(scene: Scene, n: nat, kill: Kill)
    requires n <= |scene.Ents()| && kill in Kills(scene, n)
    ensures kill.ent < n && Condemned(scene, kill.ent) && IsFifo(scene.Ents()[kill.ent])
    ensures kill.pid != scene.self
    ensures HitReader(scene, kill)
  {
    if kill in Kills(scene, n - 1) {
      OnlyReadersAreKilled(scene, n - 1, kill);
    } else {
      KillsOfOne(scene, n - 1, kill);
    }
  }

  // ---------- the whole run ----------

  /** What the removal pass of a run sees: the looks that follow the sweep's own. */
  ghost function AfterSweep(run: Run, world: World, root: string, disk: Disk): Scene {
    var first := |Targets(run, world)| + 1;
    Scene(root, disk, (k: nat) => world.listing(first + k).procs, run.self)
  }

  datatype Report = Report(removedDirs: seq<string>, reaped: seq<nat>, survived: seq<nat>) | Failed

  /** Sweep first, so that leftover daemons die before their roots are judged. */
  method ReapCiRun(run: Run, world: World, root: string, disk: Disk)
    returns (report: Report, ghost kills: seq<Kill>, ghost done: nat)
    ensures var scene := AfterSweep(run, world, root, disk);
            && (report.Failed? <==> Throws(scene))
            && (report.Report? ==>
                  report == Report(Cleared(scene, |scene.Ents()|),
                                   PidsWith(Sent(run, world), false), PidsWith(Sent(run, world), true)))
            && done <= |scene.Ents()| && kills == Kills(scene, done)
            && (report.Report? ==> done == |scene.Ents()|)
  {
    var looks, reaped, survived := SweepBindPidGoneDaemons(run, world);
    var scene := Scene(root, disk, (k: nat) => world.listing(looks + k).procs, run.self);
    var removal;
    removal, kills, done := RemoveThisRunRuntimeRoots(scene);
    match removal {
      case Threw => report := Failed;
      case Removed(paths) => report := Report(paths, reaped, survived);
    }
  }

  /** A process that is a peer's in every look: never doomed, and no `cat`. */
  ghost predicate Peer(run: Run, world: World, pid: nat) {
    forall look ::
      !IsDoomed(run, world.listing(look), pid)
      && forall row :: 0 <= row < |world.listing(look).procs| && world.listing(look).procs[row].pid == pid ==>
                         !IsCat(world.listing(look).procs[row].command)
  }

  /** Fail-safe toward the living: however the table changes during a run, a peer is never signalled
      or killed, and the root of a daemon it names throughout is not removed. */
  lemma PeerIsLeftAlone(run: Run, world: World, root: string, disk: Disk, pid: nat, i: nat)
    requires Peer(run, world, pid)
    requires i < |AfterSweep(run, world, root, disk).Ents()|
    ensures var scene := AfterSweep(run, world, root, disk);
            && (forall k :: 0 <= k < |Sent(run, world)| ==> Sent(run, world)[k].pid != pid)
            && (forall n, kill :: 0 <= n <= |scene.Ents()| && kill in Kills(scene, n) ==> kill.pid != pid)
            && (Uses(world, pid, scene.PathOf(i)) && !IsFifo(scene.Ents()[i]) ==>
                  scene.PathOf(i) !in Cleared(scene, |scene.Ents()|))
  {
    var scene := AfterSweep(run, world, root, disk);
    PeersAreSafe(run, world, pid);
    forall n, kill | 0 <= n <= |scene.Ents()| && kill in Kills(scene, n) ensures kill.pid != pid {
      NoCatIsKilled(scene, pid, n, kill);
    }
    if Uses(world, pid, scene.PathOf(i)) && !IsFifo(scene.Ents()[i]) {
      UsedIsNamed(run, world, root, disk, pid, scene.PathOf(i));
      NamedIsKept(scene, i);
    }
  }

  /** A daemon's root that some command line of look 0 names is not removed. */
  lemma NamedIsKept(scene: Scene, i: nat)
    requires i < |scene.Ents()| && !IsFifo(scene.Ents()[i]) && Named(scene.look(0), scene.PathOf(i))
    ensures scene.PathOf(i) !in Cleared(scene, |scene.Ents()|)
  {
    ClearedAreCondemned(scene, |scene.Ents()|, scene.PathOf(i));
    forall j | 0 <= j < |scene.Ents()| && scene.PathOf(j) == scene.PathOf(i) ensures !Condemned(scene, j) {
      PathsDiffer(scene, i, j);
    }
  }

  lemma UsedIsNamed(run: Run, world: World, root: string, disk: Disk, pid: nat, path: string)
    requires Uses(world, pid, path)
    ensures Named(AfterSweep(run, world, root, disk).look(0), path)
  {
    var look := |Targets(run, world)| + 1;
    assert AfterSweep(run, world, root, disk).look(0) == world.listing(look).procs;
    var row :| 0 <= row < |world.listing(look).procs|
               && world.listing(look).procs[row].pid == pid
               && Includes(world.listing(look).procs[row].command, path);
  }

  /** A pid that is no `cat` in any look is never killed. */
  lemma NoCatIsKilled(scene: Scene, pid: nat, n: nat, kill: Kill)
    requires forall k: nat, row :: 0 <= row < |scene.look(k)| && scene.look(k)[row].pid == pid ==>
                                !IsCat(scene.look(k)[row].command)
    requires n <= |scene.Ents()| && kill in Kills(scene, n)
    ensures kill.pid != pid
  {
    OnlyReadersAreKilled(scene, n, kill);
  }

  /** In every look some row of this pid names the path. */
  ghost predicate Uses(world: World, pid: nat, path: string) {
    forall look :: exists row :: 0 <= row < |world.listing(look).procs|
                                 && world.listing(look).procs[row].pid == pid
                                 && Includes(world.listing(look).procs[row].command, path)
  }

  // ---------- in plain terms ----------

  /** A runtime root is a directory of one of three names; FIFOs are those of the last. */
  lemma RootNames(ent: DirEnt)
    ensures IsRuntimeRoot(ent) <==>
            ent.isDirectory
            && (StartsWith(ent.name, "padi-dial-rt-") || StartsWith(ent.name, "padi-dial-sr-")
                || StartsWith(ent.name, "kolu-scroll-fifo-"))
    ensures IsFifo(ent) <==> StartsWith(ent.name, "kolu-scroll-fifo-")
  {
  }

  /** A reader is another process than the janitor, a `cat` whose command line names the FIFO. */
  lemma ReaderExactly(scene: Scene, i: nat, proc: Proc)
    requires i < |scene.Ents()|
    ensures Reads(scene, i, proc) <==>
            Includes(proc.command, (scene.root + "/" + scene.Ents()[i].name) + "/trigger")
            && IsCat(proc.command) && proc.pid != scene.self
  {
  }

  /** An owner file names a pid exactly when it holds that positive number as it is written, white space
      around it aside. */
  lemma OwnerExactly(text: string, n: nat)
    ensures OwnerPid(None) == None
    ensures OwnerPid(Some(text)) == Some(n) <==> n > 0 && Padded(text, Decimal(n))
  {
    TrimExactly(text, Decimal(n));
    TrimExactly(text, Trim(text));
    DecimalIsTrimmed(n);
    DecimalDenotes(n);
    var raw := Trim(text);
    if IsNumeral(raw) && raw[0] != '0' && NumeralValue(raw) == n {
      PidIsDecimal(raw, n);
    }
  }

  lemma PidIsDecimal(raw: string, n: nat)
    requires IsNumeral(raw) && raw[0] != '0' && NumeralValue(raw) == n
    ensures n > 0 && raw == Decimal(n)
  {
    NumeralIsPadded(raw);
  }

  lemma {:induction false} DecimalIsTrimmed(n: nat)
    ensures Trimmed(Decimal(n)) && (n > 0 ==> Decimal(n)[0] != '0')
  {
    if n >= 10 {
      DecimalIsTrimmed(n / 10);
    }
  }

  lemma {:induction false} FirstWordOf(word: string, tail: string)
    requires forall i :: 0 <= i < |word| ==> !IsSpace(word[i])
    requires tail == "" || IsSpace(tail[0])
    ensures FirstWord(word + tail) == word
  {
    if word == "" {
      assert word + tail == tail;
    } else {
      assert (word + tail)[1..] == word[1..] + tail;
      FirstWordOf(word[1..], tail);
      assert [word[0]] + word[1..] == word;
    }
  }

  lemma TrimEndKeepsWord(word: string, tail: string) returns (rest: string)
    requires word != "" && !IsSpace(word[|word| - 1]) && (tail == "" || IsSpace(tail[0]))
    ensures TrimEnd(word + tail) == word + rest && (rest == "" || IsSpace(rest[0]))
  {
    var s, r := word + tail, TrimEnd(word + tail);
    var cut := CutAtEnd(s);
    assert forall k :: |r| <= k < |s| ==> s[k] == cut[k - |r|] && IsSpace(s[k]);
    assert s[|word| - 1] == word[|word| - 1];
    rest := r[|word|..];
    assert r == s[..|r|];
    assert r[..|word|] == word;
    assert rest != "" ==> rest[0] == s[|word|] == tail[0];
  }

  /** The word a command is judged by is its first, after any white space. */
  lemma FirstWordExactly(a: string, word: string, tail: string)
    requires AllSpace(a) && word != "" && forall i :: 0 <= i < |word| ==> !IsSpace(word[i])
    requires tail == "" || IsSpace(tail[0])
    ensures FirstWord(Trim(a + word + tail)) == word
  {
    var s := word + tail;
    assert s[0] == word[0];
    assert a + word + tail == a + s;
    TrimStartsAt(a, s);
    var rest := TrimEndKeepsWord(word, tail);
    FirstWordOf(word, rest);
  }

  /** So a command is a `cat` exactly when that word is `cat` or a path to it. */
  lemma CatExactly(a: string, word: string, tail: string)
    requires AllSpace(a) && word != "" && forall i :: 0 <= i < |word| ==> !IsSpace(word[i])
    requires tail == "" || IsSpace(tail[0])
    ensures IsCat(a + word + tail) <==> IsPathTo(word, "cat")
  {
    FirstWordExactly(a, word, tail);
    BaseNameIs(word, "cat");
  }

  /** The roots are judged by a look taken after every signal of the sweep. */
  lemma JudgedAfterTheSweep(run: Run, world: World, root: string, disk: Disk, k: nat) returns (judged: nat)
    requires k < |Sent(run, world)|
    ensures AfterSweep(run, world, root, disk).look(0) == world.listing(judged).procs
    ensures Sent(run, world)[k].look < judged
  {
    judged := |Targets(run, world)| + 1;
    SignalsAreDoomed(run, world, Targets(run, world), |Targets(run, world)|, k);
  }

  lemma SlashCat(dir: string, slash: char)
    ensures IsPathTo(dir + [slash] + "cat", "cat") <==> slash == '/' || slash == '\\'
  {
    var word := dir + [slash] + "cat";
    assert word[|word| - 3..] == "cat" && word[|word| - 4] == slash;
  }

  /** The path ends in `cat` after a slash of either kind, or is `cat`. */
  lemma CatPaths(word: string)
    ensures IsPathTo(word, "cat") <==>
            word == "cat" || exists dir, slash :: (slash == '/' || slash == '\\') && word == dir + [slash] + "cat"
  {
    forall dir, slash ensures IsPathTo(dir + [slash] + "cat", "cat") <==> slash == '/' || slash == '\\' {
      SlashCat(dir, slash);
    }
    if IsPathTo(word, "cat") && |word| > 3 {
      var dir, slash := word[..|word| - 4], word[|word| - 4];
      assert word == dir + [slash] + "cat";
    }
  }

  /** Each condemned FIFO takes a look of its own at the table, the next one; nothing else takes any. */
  lemma {:induction false} FifosLookApart(scene: Scene, i: nat, j: nat)
    requires i <= j <= |scene.Ents()|
    ensures Looks(scene, 0) == 1 && Looks(scene, i) <= Looks(scene, j)
    ensures i < j && Condemned(scene, i) && IsFifo(scene.Ents()[i]) ==> Looks(scene, i) < Looks(scene, j)
    ensures (forall k :: i <= k < j ==> !(Condemned(scene, k) && IsFifo(scene.Ents()[k]))) ==>
              Looks(scene, i) == Looks(scene, j)
  {
    if i < j {
      FifosLookApart(scene, i, j - 1);
    }
  }

  /** The pids killed for a root are those of its readers' rows, where the signal got through. */
  lemma KilledExactly(scene: Scene, i: nat, procs: seq<Proc>, pid: nat)
    requires i < |scene.Ents()|
    ensures pid in Marked(procs, Hits(scene, i, procs)) <==>
            exists row :: 0 <= row < |procs| && Reads(scene, i, procs[row]) && scene.disk.delivered(i, row)
                          && procs[row].pid == pid
  {
    MarkedRows(procs, Hits(scene, i, procs), pid);
  }

  /** A missing directory is nothing to do; an unreadable one, or a condemned root that stays, throws. */
  lemma ThrowsExactly(scene: Scene)
    ensures scene.disk.dir.NotFound? ==> !Throws(scene) && Cleared(scene, |scene.Ents()|) == []
    ensures scene.disk.dir.ReadFails? ==> Throws(scene)
    ensures scene.disk.dir.Entries? ==>
              (!Throws(scene) <==> forall i :: 0 <= i < |scene.Ents()| && Condemned(scene, i) ==> !scene.disk.removeThrows(i))
  {
  }
}
