/** The set of agents a host serves: its identity, and the words for what a delivery changed. */
module Landing {
  import opened Text
  import opened Json

  datatype Profile = Profile(reference: string, name: string, rev: Option<string>, path: string)

  datatype DeliveredSet = DeliveredSet(bundle: string, profiles: seq<Profile>)

  function References(profiles: seq<Profile>): (refs: seq<string>)
    ensures |refs| == |profiles| && forall i :: 0 <= i < |refs| ==> refs[i] == profiles[i].reference
  {
    seq(|profiles|, i requires 0 <= i < |profiles| => profiles[i].reference)
  }

  function Paths(profiles: seq<Profile>): (paths: seq<string>)
    ensures |paths| == |profiles| && forall i :: 0 <= i < |paths| ==> paths[i] == profiles[i].path
  {
    seq(|profiles|, i requires 0 <= i < |profiles| => profiles[i].path)
  }

  predicate SameStack(a: seq<string>, b: seq<string>) {
    |a| == |b| && forall i :: 0 <= i < |a| ==> a[i] == b[i]
  }

  function SetKey(s: DeliveredSet): string {
    JsonText(Strings([s.bundle] + Paths(s.profiles)))
  }

  predicate SameSet(a: DeliveredSet, b: DeliveredSet) {
    SetKey(a) == SetKey(b)
  }

  /** Keys are equal exactly when the package and the ordered builds are, whatever the paths contain. */
  lemma SetKeyIdentifies(a: DeliveredSet, b: DeliveredSet)
    ensures SetKey(a) == SetKey(b) <==> a.bundle == b.bundle && Paths(a.profiles) == Paths(b.profiles)
  {
    var x, y := [a.bundle] + Paths(a.profiles), [b.bundle] + Paths(b.profiles);
    StringsTextIsInjective(x, y);
    assert x[0] == a.bundle && x[1..] == Paths(a.profiles);
    assert y[0] == b.bundle && y[1..] == Paths(b.profiles);
  }

  // ---------- how builds are named ----------

  function JoinWith(words: seq<string>, sep: string): string {
    if |words| == 0 then ""
    else if |words| == 1 then words[0]
    else words[0] + sep + JoinWith(words[1..], sep)
  }

  function StackTitle(profiles: seq<Profile>): string {
    JoinWith(seq(|profiles|, i requires 0 <= i < |profiles| => profiles[i].name), " + ")
  }

  function LastNonEmpty(parts: seq<string>): Option<string> {
    if |parts| == 0 then None
    else if parts[|parts| - 1] != "" then Some(parts[|parts| - 1])
    else LastNonEmpty(parts[..|parts| - 1])
  }

  function Prefix(s: string, n: nat): string {
    if |s| <= n then s else s[..n]
  }

  function ShortHash(path: string): string {
    var base := LastNonEmpty(Split(path, '/'));
    Prefix(if base.Some? then base.value else path, 8)
  }

  function BuildLabel(p: Profile): string {
    if p.rev.Some? then Prefix(p.rev.value, 7) else ShortHash(p.path)
  }

  // ---------- what a delivery changed ----------

  datatype Delivery<V> = Delivery(served: DeliveredSet, versions: Option<V>)

  /** What a `Map` from references to profiles holds for a reference: the last entry set. */
  function LastOf(profiles: seq<Profile>, reference: string): (p: Option<Profile>)
    ensures p.Some? ==> p.value in profiles && p.value.reference == reference
    ensures p.None? ==> reference !in References(profiles)
  {
    if |profiles| == 0 then None
    else if profiles[|profiles| - 1].reference == reference then Some(profiles[|profiles| - 1])
    else LastOf(profiles[..|profiles| - 1], reference)
  }

  /** The phrase about one delivered profile, given what was there before it. */
  function Phrase(was: Option<Profile>, p: Profile, first: bool): (w: Option<string>)
    ensures w.None? <==> was.Some? && was.value.path == p.path
    ensures w.Some? ==> w.value != ""
  {
    match was
    case None => Some(if first then p.name + " " + BuildLabel(p) else p.name + " added " + BuildLabel(p))
    case Some(o) =>
      if o.path == p.path then None
      else if BuildLabel(o) == BuildLabel(p) then Some(p.name + " " + ShortHash(o.path) + " → " + ShortHash(p.path))
      else Some(p.name + " " + BuildLabel(o) + " → " + BuildLabel(p))
  }

  function OptionSeq<T>(o: Option<T>): seq<T> {
    if o.Some? then [o.value] else []
  }

  /** The phrases about the profiles of `next`, in order. */
  function DeliveredWords(before: seq<Profile>, first: bool, next: seq<Profile>): seq<string> {
    if |next| == 0 then []
    else
      var p := next[|next| - 1];
      DeliveredWords(before, first, next[..|next| - 1]) + OptionSeq(Phrase(LastOf(before, p.reference), p, first))
  }

  function RemovedWords(before: seq<Profile>, next: seq<Profile>): seq<string> {
    if |before| == 0 then []
    else
      var p := before[|before| - 1];
      RemovedWords(before[..|before| - 1], next)
      + (if p.reference in References(next) then [] else [p.name + " removed"])
  }

  function Before<V>(previous: Option<Delivery<V>>): seq<Profile> {
    if previous.Some? then previous.value.served.profiles else []
  }

  function PackageWords<V>(changes: (Option<V>, Option<V>) -> string, previous: Option<Delivery<V>>, next: Delivery<V>)
    : seq<string>
  {
    if previous.Some? && previous.value.served.bundle == next.served.bundle then []
    else [changes(if previous.Some? then previous.value.versions else None, next.versions)]
  }

  function ProfileWords<V>(previous: Option<Delivery<V>>, next: Delivery<V>): seq<string> {
    DeliveredWords(Before(previous), previous.None?, next.served.profiles)
    + RemovedWords(Before(previous), next.served.profiles)
  }

  function Words<V>(changes: (Option<V>, Option<V>) -> string, previous: Option<Delivery<V>>, next: Delivery<V>)
    : seq<string>
  {
    var words := PackageWords(changes, previous, next) + ProfileWords(previous, next);
    words + (if |words| == 0 && previous.Some? then ReorderWords(Before(previous), next.served.profiles) else [])
  }

  /** Said when nothing else is: the same profiles in another order are another stack. */
  function ReorderWords(was: seq<Profile>, next: seq<Profile>): seq<string> {
    if SameStack(References(was), References(next)) then [] else ["profiles reordered: " + StackTitle(next)]
  }

  function Lookup(m: map<string, Profile>, r: string): Option<Profile> {
    if r in m then Some(m[r]) else None
  }

  method IndexByReference(profiles: seq<Profile>) returns (m: map<string, Profile>)
    ensures forall r :: Lookup(m, r) == LastOf(profiles, r)
  {
    m := map[];
    for i := 0 to |profiles|
      invariant forall r :: Lookup(m, r) == LastOf(profiles[..i], r)
    {
      m := m[profiles[i].reference := profiles[i]];
      assert profiles[..i + 1][..i] == profiles[..i];
    }
    assert profiles[..|profiles|] == profiles;
  }

  method SayDelivered(words: seq<string>, was: seq<Profile>, first: bool, next: seq<Profile>)
    returns (r: seq<string>)
    ensures r == words + DeliveredWords(was, first, next)
  {
    var before := IndexByReference(was);
    r := words;
    for i := 0 to |next|
      invariant r == words + DeliveredWords(was, first, next[..i])
    {
      assert next[..i + 1][..i] == next[..i];
      r := r + OptionSeq(Phrase(Lookup(before, next[i].reference), next[i], first));
    }
    assert next[..|next|] == next;
  }

  method SayRemoved(words: seq<string>, was: seq<Profile>, next: seq<Profile>) returns (r: seq<string>)
    ensures r == words + RemovedWords(was, next)
  {
    var after := set ref | ref in References(next);
    r := words;
    for i := 0 to |was|
      invariant r == words + RemovedWords(was[..i], next)
    {
      assert was[..i + 1][..i] == was[..i];
      if was[i].reference !in after {
        r := r + [was[i].name + " removed"];
      }
    }
    assert was[..|was|] == was;
  }

  /** The history line of a delivery. */
  method DeliveryChanges<V>(changes: (Option<V>, Option<V>) -> string, previous: Option<Delivery<V>>, next: Delivery<V>)
    returns (text: string)
    ensures text == JoinWith(Words(changes, previous, next), ", ")
  {
    var was, profiles := Before(previous), next.served.profiles;
    var package := PackageWords(changes, previous, next);
    var delivered := SayDelivered(package, was, previous.None?, profiles);
    var words := SayRemoved(delivered, was, profiles);
    Regroup(package, DeliveredWords(was, previous.None?, profiles), RemovedWords(was, profiles));
    assert words == package + ProfileWords(previous, next);
    assert words + [] == words;
    if |words| == 0 && previous.Some? {
      words := words + ReorderWords(was, profiles);
    }
    assert words == Words(changes, previous, next);
    text := JoinWith(words, ", ");
  }

  lemma Regroup(a: seq<string>, b: seq<string>, c: seq<string>)
    ensures (a + b) + c == a + (b + c)
  {
  }

  // ---------- nothing said means nothing changed ----------

  predicate NoneEmpty(words: seq<string>) {
    forall i :: 0 <= i < |words| ==> words[i] != ""
  }

  lemma JoinEmpty(words: seq<string>, sep: string)
    requires sep != "" && NoneEmpty(words)
    ensures JoinWith(words, sep) == "" <==> words == []
  {
  }

  /** The build delivered for a reference is the one last known for it. */
  predicate KeptBuild(was: seq<Profile>, p: Profile) {
    var last := LastOf(was, p.reference);
    last.Some? && last.value.path == p.path
  }

  predicate AllKept(was: seq<Profile>, next: seq<Profile>) {
    forall i :: 0 <= i < |next| ==> KeptBuild(was, next[i])
  }

  lemma AllKeptButLast(was: seq<Profile>, front: seq<Profile>, p: Profile)
    ensures AllKept(was, front + [p]) <==> AllKept(was, front) && KeptBuild(was, p)
  {
    var all := front + [p];
    assert all[|front|] == p;
    assert forall i :: 0 <= i < |front| ==> all[i] == front[i];
  }

  lemma {:induction false} DeliveredSilence(was: seq<Profile>, first: bool, next: seq<Profile>)
    ensures NoneEmpty(DeliveredWords(was, first, next))
    ensures |DeliveredWords(was, first, next)| == 0 <==> AllKept(was, next)
  {
    if |next| > 0 {
      var p, front := next[|next| - 1], next[..|next| - 1];
      DeliveredSilence(was, first, front);
      AllKeptButLast(was, front, p);
      assert next == front + [p];
      OneWordMore(DeliveredWords(was, first, front), Phrase(LastOf(was, p.reference), p, first));
    }
  }

  lemma OneWordMore(words: seq<string>, w: Option<string>)
    requires NoneEmpty(words) && (w.Some? ==> w.value != "")
    ensures NoneEmpty(words + OptionSeq(w))
    ensures |words + OptionSeq(w)| == 0 <==> |words| == 0 && w.None?
  {
  }

  lemma {:induction false} RemovedSilence(was: seq<Profile>, next: seq<Profile>)
    ensures NoneEmpty(RemovedWords(was, next))
    ensures RemovedWords(was, next) == [] <==>
            forall i :: 0 <= i < |was| ==> was[i].reference in References(next)
  {
    if |was| > 0 {
      RemovedSilence(was[..|was| - 1], next);
    }
  }

  /** On an unchanged package, for any stacks: the line is empty exactly when the references are the
      same in order and every delivered build is the one last known for its reference. */
  lemma SaidNothingExactly<V>(changes: (Option<V>, Option<V>) -> string, previous: Delivery<V>, next: Delivery<V>)
    requires previous.served.bundle == next.served.bundle
    ensures var was, now := previous.served.profiles, next.served.profiles;
            JoinWith(Words(changes, Some(previous), next), ", ") == "" <==>
            SameStack(References(was), References(now))
            && AllKept(was, now)
  {
    var was, now := previous.served.profiles, next.served.profiles;
    DeliveredSilence(was, false, now);
    RemovedSilence(was, now);
    var said := ProfileWords(Some(previous), next);
    assert PackageWords(changes, Some(previous), next) + said == said;
    var words := Words(changes, Some(previous), next);
    assert NoneEmpty(words);
    JoinEmpty(words, ", ");
    if SameStack(References(was), References(now)) {
      forall i | 0 <= i < |was| ensures was[i].reference in References(now) {
        assert References(now)[i] == References(was)[i];
      }
    }
  }

  // ---------- one phrase for each change ----------

  predicate Distinct(profiles: seq<Profile>) {
    forall i, j :: 0 <= i < j < |profiles| ==> profiles[i].reference != profiles[j].reference
  }

  lemma {:induction false} LastOfDistinct(profiles: seq<Profile>, i: nat)
    requires Distinct(profiles) && i < |profiles|
    ensures LastOf(profiles, profiles[i].reference) == Some(profiles[i])
  {
    if i < |profiles| - 1 {
      LastOfDistinct(profiles[..|profiles| - 1], i);
    }
  }

  /** For duplicate-free stacks on an unchanged package, an empty line is an unchanged set and stack. */
  lemma SilenceIsSameSet<V>(changes: (Option<V>, Option<V>) -> string, previous: Delivery<V>, next: Delivery<V>)
    requires previous.served.bundle == next.served.bundle
    requires Distinct(previous.served.profiles) && Distinct(next.served.profiles)
    ensures JoinWith(Words(changes, Some(previous), next), ", ") == "" <==>
            SameStack(References(previous.served.profiles), References(next.served.profiles))
            && SameSet(previous.served, next.served)
  {
    var was, now := previous.served.profiles, next.served.profiles;
    SaidNothingExactly(changes, previous, next);
    SetKeyIdentifies(previous.served, next.served);
    if SameStack(References(was), References(now)) {
      forall i | 0 <= i < |now| ensures LastOf(was, now[i].reference) == Some(was[i]) {
        assert References(was)[i] == References(now)[i];
        LastOfDistinct(was, i);
      }
      assert Paths(was) == Paths(now) <==> forall i :: 0 <= i < |now| ==> Paths(was)[i] == Paths(now)[i];
    }
  }

  /** What a reference's phrase says, by the reference alone: delivered, it is added, rebuilt or as it
      was; not delivered, it is removed. */
  function PhraseAbout(was: seq<Profile>, now: seq<Profile>, reference: string): Option<string> {
    match LastOf(now, reference)
    case Some(p) => Phrase(LastOf(was, reference), p, false)
    case None => if LastOf(was, reference).Some? then Some(LastOf(was, reference).value.name + " removed") else None
  }

  function About(was: seq<Profile>, now: seq<Profile>): string -> Option<string> {
    (reference: string) => PhraseAbout(was, now, reference)
  }

  /** `subjects` are the references the words are about, one each: no reference twice. */
  ghost predicate OneEach(words: seq<string>, subjects: seq<string>, about: string -> Option<string>) {
    |words| == |subjects|
    && (forall i :: 0 <= i < |words| ==> about(subjects[i]) == Some(words[i]))
    && (forall i, j :: 0 <= i < j < |subjects| ==> subjects[i] != subjects[j])
  }

  lemma {:induction false} DeliveredSubjects(was: seq<Profile>, now: seq<Profile>, n: nat) returns (subjects: seq<string>)
    requires Distinct(now) && n <= |now|
    ensures OneEach(DeliveredWords(was, false, now[..n]), subjects, About(was, now))
    ensures forall r :: r in subjects <==>
                        r in References(now[..n]) && PhraseAbout(was, now, r).Some?
  {
    if n == 0 {
      subjects := [];
    } else {
      var p := now[n - 1];
      subjects := DeliveredSubjects(was, now, n - 1);
      LastOfDistinct(now, n - 1);
      assert now[..n][..n - 1] == now[..n - 1];
      assert References(now[..n]) == References(now[..n - 1]) + [p.reference];
      assert p.reference !in References(now[..n - 1]);
      assert PhraseAbout(was, now, p.reference) == Phrase(LastOf(was, p.reference), p, false);
      var added := OneMore(DeliveredWords(was, false, now[..n - 1]), subjects, About(was, now), p.reference);
      subjects := subjects + added;
    }
  }

  /** The phrase about one more reference, and its subject, together. */
  lemma OneMore(words: seq<string>, subjects: seq<string>, about: string -> Option<string>, reference: string)
    returns (added: seq<string>)
    requires OneEach(words, subjects, about) && reference !in subjects
    ensures added == if about(reference).Some? then [reference] else []
    ensures OneEach(words + OptionSeq(about(reference)), subjects + added, about)
  {
    added := if about(reference).Some? then [reference] else [];
  }

  lemma {:induction false} RemovedSubjects(was: seq<Profile>, now: seq<Profile>, n: nat) returns (subjects: seq<string>)
    requires Distinct(was) && n <= |was|
    ensures OneEach(RemovedWords(was[..n], now), subjects, About(was, now))
    ensures forall r :: r in subjects <==> r in References(was[..n]) && r !in References(now)
  {
    if n == 0 {
      subjects := [];
    } else {
      var p := was[n - 1];
      subjects := RemovedSubjects(was, now, n - 1);
      LastOfDistinct(was, n - 1);
      assert was[..n][..n - 1] == was[..n - 1];
      assert References(was[..n]) == References(was[..n - 1]) + [p.reference];
      assert p.reference !in References(was[..n - 1]);
      if p.reference !in References(now) {
        LastOfNone(now, p.reference);
        var added := OneMore(RemovedWords(was[..n - 1], now), subjects, About(was, now), p.reference);
        subjects := subjects + added;
      }
    }
  }

  lemma LastOfNone(profiles: seq<Profile>, reference: string)
    ensures LastOf(profiles, reference).None? <==> reference !in References(profiles)
  {
    if LastOf(profiles, reference).Some? {
      var i :| 0 <= i < |profiles| && profiles[i] == LastOf(profiles, reference).value;
      assert References(profiles)[i] == reference;
    }
  }

  lemma BothEach(w1: seq<string>, s1: seq<string>, w2: seq<string>, s2: seq<string>, about: string -> Option<string>)
    requires OneEach(w1, s1, about) && OneEach(w2, s2, about)
    requires forall r :: r in s1 ==> r !in s2
    ensures OneEach(w1 + w2, s1 + s2, about)
  {
    var s := s1 + s2;
    forall i, j | 0 <= i < j < |s| ensures s[i] != s[j] {
      if i < |s1| <= j {
        assert s[i] in s1 && s[j] in s2;
      }
    }
  }

  /** For duplicate-free stacks on an unchanged package: each reference that was added, rebuilt or
      removed gets exactly one phrase, its own, and no other reference gets any. */
  lemma OnePhraseEach<V>(previous: Delivery<V>, next: Delivery<V>) returns (subjects: seq<string>)
    requires Distinct(previous.served.profiles) && Distinct(next.served.profiles)
    ensures var was, now := previous.served.profiles, next.served.profiles;
            OneEach(ProfileWords(Some(previous), next), subjects, About(was, now))
            && forall r :: r in subjects <==> PhraseAbout(was, now, r).Some?
  {
    var was, now := previous.served.profiles, next.served.profiles;
    var delivered := DeliveredSubjects(was, now, |now|);
    var removed := RemovedSubjects(was, now, |was|);
    assert now[..|now|] == now && was[..|was|] == was;
    subjects := delivered + removed;
    BothEach(DeliveredWords(was, false, now), delivered, RemovedWords(was, now), removed, About(was, now));
    forall r ensures r in subjects <==> PhraseAbout(was, now, r).Some? {
      LastOfNone(now, r);
      LastOfNone(was, r);
    }
  }

  /** With nothing added, rebuilt or removed, a line is said only of a reorder, and it is one phrase. */
  lemma ReorderIsOnePhrase<V>(changes: (Option<V>, Option<V>) -> string, previous: Delivery<V>, next: Delivery<V>)
    requires previous.served.bundle == next.served.bundle
    requires Distinct(previous.served.profiles) && Distinct(next.served.profiles)
    ensures var was, now := previous.served.profiles, next.served.profiles;
            |Words(changes, Some(previous), next)| ==
              if exists r :: PhraseAbout(was, now, r).Some? then |ProfileWords(Some(previous), next)|
              else if SameStack(References(was), References(now)) then 0 else 1
  {
    var was, now := previous.served.profiles, next.served.profiles;
    var subjects := OnePhraseEach(previous, next);
    var said := ProfileWords(Some(previous), next);
    assert PackageWords(changes, Some(previous), next) + said == said;
    if said == [] {
      assert forall r :: r !in subjects;
    } else {
      assert subjects[0] in subjects;
    }
  }

  // ---------- the words themselves ----------

  /** Whatever the profiles, a changed package is said first, from what it was to what it is: from
      nothing on a first landing. Then come the profiles' phrases, and no reorder. */
  lemma PackageIsSaidFirst<V>(
    changes: (Option<V>, Option<V>) -> string, previous: Option<Delivery<V>>, next: Delivery<V>)
    requires previous.None? || previous.value.served.bundle != next.served.bundle
    ensures var was := if previous.Some? then previous.value.versions else None;
            Words(changes, previous, next) == [changes(was, next.versions)] + ProfileWords(previous, next)
  {
  }

  /** On an unchanged package upstream's `changes` is not asked: any other would give the same line. */
  lemma UnchangedPackageIsSilent<V>(
    changes: (Option<V>, Option<V>) -> string, other: (Option<V>, Option<V>) -> string,
    previous: Delivery<V>, next: Delivery<V>)
    requires previous.served.bundle == next.served.bundle
    ensures Words(changes, Some(previous), next) == Words(other, Some(previous), next)
    ensures ProfileWords(Some(previous), next) <= Words(changes, Some(previous), next)
  {
    var said := ProfileWords(Some(previous), next);
    assert PackageWords(changes, Some(previous), next) + said == said;
    assert PackageWords(other, Some(previous), next) + said == said;
  }

  /** The profiles that stay, are added or rebuilt are spoken of before those that go. */
  lemma DeliveredBeforeRemoved<V>(previous: Option<Delivery<V>>, next: Delivery<V>)
    ensures previous.None? ==>
              |ProfileWords(previous, next)| == |next.served.profiles|
              && forall i :: 0 <= i < |next.served.profiles| ==>
                               var p := next.served.profiles[i];
                               ProfileWords(previous, next)[i] == p.name + " " + BuildLabel(p)
    ensures DeliveredWords(Before(previous), previous.None?, next.served.profiles) <= ProfileWords(previous, next)
  {
    if previous.None? {
      FirstWords(next.served.profiles);
    }
  }

  lemma {:induction false} FirstWords(next: seq<Profile>)
    ensures |DeliveredWords([], true, next)| == |next|
    ensures forall i :: 0 <= i < |next| ==>
                          DeliveredWords([], true, next)[i] == next[i].name + " " + BuildLabel(next[i])
  {
    if |next| > 0 {
      FirstWords(next[..|next| - 1]);
    }
  }

  /** The phrases: added with its build; rebuilt from the old label to the new one, or from the old store
      hash to the new one where the labels are the same; nothing of an unchanged build. */
  lemma PhraseWords(o: Profile, p: Profile)
    ensures Phrase(None, p, false) == Some(p.name + " added " + BuildLabel(p))
    ensures o.path == p.path ==> Phrase(Some(o), p, false) == None
    ensures o.path != p.path && BuildLabel(o) != BuildLabel(p) ==>
              Phrase(Some(o), p, false) == Some(p.name + " " + BuildLabel(o) + " → " + BuildLabel(p))
    ensures o.path != p.path && BuildLabel(o) == BuildLabel(p) ==>
              Phrase(Some(o), p, false) == Some(p.name + " " + ShortHash(o.path) + " → " + ShortHash(p.path))
  {
  }

  /** A build is named by the first seven characters of its revision, or by the first eight of the last
      part of its store path. */
  lemma BuildNames(p: Profile, dir: string, base: string, tail: string)
    requires p.path == dir + "/" + base + tail
    requires base != "" && Free(base, '/') && forall i :: 0 <= i < |tail| ==> tail[i] == '/'
    ensures p.rev.Some? && |p.rev.value| >= 7 ==> BuildLabel(p) == p.rev.value[..7]
    ensures p.rev.Some? && |p.rev.value| <= 7 ==> BuildLabel(p) == p.rev.value
    ensures p.rev.None? ==> BuildLabel(p) == ShortHash(p.path)
    ensures ShortHash(p.path) == if |base| <= 8 then base else base[..8]
  {
    LastPart(dir, base, tail);
  }

  lemma {:induction false} EmptyParts(tail: string)
    requires forall i :: 0 <= i < |tail| ==> tail[i] == '/'
    ensures forall i :: 0 <= i < |Split(tail, '/')| ==> Split(tail, '/')[i] == ""
  {
    if tail != "" {
      EmptyParts(tail[1..]);
    }
  }

  lemma {:induction false} LastBeforeEmpties(parts: seq<string>, base: string, empties: seq<string>)
    requires base != "" && forall i :: 0 <= i < |empties| ==> empties[i] == ""
    ensures LastNonEmpty(parts + [base] + empties) == Some(base)
  {
    var all := parts + [base] + empties;
    if |empties| == 0 {
      assert all == parts + [base];
    } else {
      assert all[..|all| - 1] == parts + [base] + empties[..|empties| - 1];
      LastBeforeEmpties(parts, base, empties[..|empties| - 1]);
    }
  }

  lemma {:induction false} SplitAround(a: string, b: string)
    ensures Split(a + "/" + b, '/') == Split(a, '/') + Split(b, '/')
  {
    if a == "" {
      assert a + "/" + b == "/" + b;
      assert ("/" + b)[1..] == b;
    } else {
      assert (a + "/" + b)[1..] == a[1..] + "/" + b;
      SplitAround(a[1..], b);
    }
  }

  lemma PartThenEmpties(base: string, tail: string) returns (empties: seq<string>)
    requires Free(base, '/') && forall i :: 0 <= i < |tail| ==> tail[i] == '/'
    ensures Split(base + tail, '/') == [base] + empties
    ensures forall i :: 0 <= i < |empties| ==> empties[i] == ""
  {
    if tail == "" {
      empties := [];
      SplitFree(base, '/');
      assert base + tail == base;
    } else {
      empties := Split(tail[1..], '/');
      SplitHead(base, '/', tail[1..]);
      assert base + ['/'] + tail[1..] == base + tail;
      EmptyParts(tail[1..]);
    }
  }

  lemma LastPart(dir: string, base: string, tail: string)
    requires base != "" && Free(base, '/') && forall i :: 0 <= i < |tail| ==> tail[i] == '/'
    ensures LastNonEmpty(Split(dir + "/" + base + tail, '/')) == Some(base)
  {
    var end := base + tail;
    var empties := PartThenEmpties(base, tail);
    assert dir + "/" + base + tail == dir + "/" + end;
    SplitAround(dir, end);
    LastBeforeEmpties(Split(dir, '/'), base, empties);
    assert Split(dir, '/') + ([base] + empties) == Split(dir, '/') + [base] + empties;
  }

  /** A stack's title is its profiles' names in order, and a reorder is said by the new title. */
  lemma Titles(a: Profile, b: Profile, rest: seq<Profile>)
    ensures StackTitle([]) == "" && StackTitle([a]) == a.name
    ensures StackTitle([a, b] + rest) == a.name + " + " + StackTitle([b] + rest)
    ensures !SameStack(References([a] + rest), References([b] + rest)) ==>
              ReorderWords([a] + rest, [b] + rest) == ["profiles reordered: " + StackTitle([b] + rest)]
  {
    var profiles, more := [a, b] + rest, [b] + rest;
    var names := seq(|profiles|, i requires 0 <= i < |profiles| => profiles[i].name);
    var tail := seq(|more|, i requires 0 <= i < |more| => more[i].name);
    assert names[1..] == tail;
  }

  /** A line's words are put together by commas. */
  lemma LineOfWords(a: string, b: string, rest: seq<string>)
    ensures JoinWith([], ", ") == "" && JoinWith([a], ", ") == a
    ensures JoinWith([a, b] + rest, ", ") == a + ", " + JoinWith([b] + rest, ", ")
  {
    assert ([a, b] + rest)[1..] == [b] + rest;
  }

  lemma {:induction false} LastOfConcat(a: seq<Profile>, b: seq<Profile>, reference: string)
    ensures LastOf(a + b, reference) == if LastOf(b, reference).Some? then LastOf(b, reference) else LastOf(a, reference)
  {
    if |b| == 0 {
      assert a + b == a;
    } else {
      assert (a + b)[..|a + b| - 1] == a + b[..|b| - 1];
      LastOfConcat(a, b[..|b| - 1], reference);
    }
  }

  /** Of the profiles under one reference the last is what a delivery is compared with. */
  lemma LastOfExactly(a: seq<Profile>, p: Profile, b: seq<Profile>, reference: string)
    ensures p.reference == reference && reference !in References(b) ==> LastOf(a + [p] + b, reference) == Some(p)
    ensures reference !in References(a) ==> LastOf(a, reference) == None
  {
    LastOfConcat(a + [p], b, reference);
    LastOfNone(b, reference);
    LastOfNone(a, reference);
  }

  /** The words are those of the profiles, one by one in their order. */
  lemma {:induction false} DeliveredInOrder(before: seq<Profile>, first: bool, a: seq<Profile>, b: seq<Profile>)
    ensures DeliveredWords(before, first, a + b) == DeliveredWords(before, first, a) + DeliveredWords(before, first, b)
  {
    if |b| == 0 {
      assert a + b == a;
    } else {
      assert (a + b)[..|a + b| - 1] == a + b[..|b| - 1];
      DeliveredInOrder(before, first, a, b[..|b| - 1]);
    }
  }

  lemma {:induction false} RemovedInOrder(a: seq<Profile>, b: seq<Profile>, next: seq<Profile>)
    ensures RemovedWords(a + b, next) == RemovedWords(a, next) + RemovedWords(b, next)
  {
    if |b| == 0 {
      assert a + b == a;
    } else {
      assert (a + b)[..|a + b| - 1] == a + b[..|b| - 1];
      RemovedInOrder(a, b[..|b| - 1], next);
    }
  }

  /** One profile is spoken of by its phrase, and one that goes is said to be removed. */
  lemma OneProfileWords(before: seq<Profile>, first: bool, next: seq<Profile>, p: Profile)
    ensures DeliveredWords(before, first, [p]) == OptionSeq(Phrase(LastOf(before, p.reference), p, first))
    ensures RemovedWords([p], next) == if p.reference in References(next) then [] else [p.name + " removed"]
  {
    assert [p][..0] == [] && DeliveredWords(before, first, []) == [] && RemovedWords([], next) == [];
  }
}
