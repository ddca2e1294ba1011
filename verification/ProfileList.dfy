/** The ordered profile list of the Agents setting, and the edits on it. */
module ProfileList {
  import opened Text

  // ---------- the written form ----------

  /** A list as it is written: trimmed, non-empty references, none twice. */
  predicate Clean(l: seq<string>) {
    (forall i :: 0 <= i < |l| ==> Trimmed(l[i]) && l[i] != "")
    && (forall i, j :: 0 <= i < j < |l| ==> l[i] != l[j])
  }

  lemma CleanAppend(front: seq<string>, ref: string)
    requires Clean(front) && Trimmed(ref) && ref != "" && ref !in front
    ensures Clean(front + [ref])
  {
  }

  /** What normalizing leaves: each trimmed reference where it first appears. */
  function Normalized(profiles: seq<string>): (r: seq<string>)
    ensures Clean(r)
  {
    if |profiles| == 0 then []
    else
      var front := Normalized(profiles[..|profiles| - 1]);
      var ref := Trim(profiles[|profiles| - 1]);
      if ref == "" || ref in front then front
      else
        CleanAppend(front, ref);
        front + [ref]
  }

  method NormalizedProfiles(profiles: seq<string>) returns (out: seq<string>)
    ensures out == Normalized(profiles)
  {
    var seen: set<string> := {};
    out := [];
    for i := 0 to |profiles|
      invariant out == Normalized(profiles[..i])
      invariant forall r :: r in seen <==> r in out
    {
      var ref := Trim(profiles[i]);
      assert profiles[..i + 1][..i] == profiles[..i];
      if ref == "" || ref in seen {
        continue;
      }
      seen := seen + {ref};
      out := out + [ref];
    }
    assert profiles[..|profiles|] == profiles;
  }

  /** Some entry of the list is, trimmed, this reference. */
  predicate Names(profiles: seq<string>, ref: string) {
    exists i :: 0 <= i < |profiles| && Trim(profiles[i]) == ref
  }

  lemma NamesButLast(front: seq<string>, last: string, ref: string)
    ensures Names(front + [last], ref) <==> Names(front, ref) || Trim(last) == ref
  {
    var all := front + [last];
    assert all[|front|] == last;
    if Names(front, ref) {
      var i :| 0 <= i < |front| && Trim(front[i]) == ref;
      assert all[i] == front[i];
    }
    if Names(all, ref) {
      var i :| 0 <= i < |all| && Trim(all[i]) == ref;
      assert i < |front| ==> front[i] == all[i];
    }
  }

  /** Nothing named is lost and nothing is made up. */
  lemma {:induction false} NormalizedNames(profiles: seq<string>, ref: string)
    ensures ref in Normalized(profiles) <==> ref != "" && Names(profiles, ref)
  {
    if |profiles| > 0 {
      var front, last := profiles[..|profiles| - 1], profiles[|profiles| - 1];
      assert profiles == front + [last];
      NormalizedNames(front, ref);
      NamesButLast(front, last, ref);
    }
  }

  /** A repeat is kept where it first appears: what follows never disturbs what is already written. */
  lemma {:induction false} NormalizedKeepsFirst(a: seq<string>, b: seq<string>)
    ensures Normalized(a) <= Normalized(a + b)
  {
    if |b| == 0 {
      assert a + b == a;
    } else {
      assert (a + b)[..|a + b| - 1] == a + b[..|b| - 1];
      NormalizedKeepsFirst(a, b[..|b| - 1]);
    }
  }

  lemma CleanButLast(front: seq<string>, last: string)
    requires Clean(front + [last])
    ensures Clean(front) && Trim(last) == last && last != "" && last !in front
  {
    var all := front + [last];
    assert all[|front|] == last;
    assert forall i :: 0 <= i < |front| ==> all[i] == front[i];
  }

  /** A list in the written form is left alone; so normalizing twice is normalizing once. */
  lemma {:induction false} CleanIsFixed(l: seq<string>)
    ensures Clean(l) <==> Normalized(l) == l
  {
    if |l| > 0 && Clean(l) {
      var front, last := l[..|l| - 1], l[|l| - 1];
      assert l == front + [last];
      CleanButLast(front, last);
      CleanIsFixed(front);
    }
  }

  // ---------- the setting ----------

  datatype Setting = Setting(enabled: bool, profiles: seq<string>)

  datatype Change = Change(on: Option<bool>, profiles: Option<seq<string>>)

  function SettingOf(stored: Option<Setting>): Setting {
    if stored.Some? then stored.value else Setting(false, [])
  }

  function AgentDistroChoice(change: Change, stored: Option<Setting>): Option<Setting> {
    if change.on.None? && change.profiles.None? then None
    else
      var current := SettingOf(stored);
      Some(Setting(if change.on.Some? then change.on.value else current.enabled,
                   Normalized(if change.profiles.Some? then change.profiles.value else current.profiles)))
  }

  /** Whatever was stored, a choice is written clean; a switch keeps a clean list to the letter, and a
      clean list is written as it is with the switch kept. */
  lemma ChoicesAreFixed(change: Change, stored: Option<Setting>)
    ensures AgentDistroChoice(change, stored).None? <==> change == Change(None, None)
    ensures AgentDistroChoice(change, stored).Some? ==>
              var chosen := AgentDistroChoice(change, stored).value;
              Clean(chosen.profiles)
              && AgentDistroChoice(Change(None, Some(chosen.profiles)), Some(chosen)) == Some(chosen)
              && forall on :: AgentDistroChoice(Change(Some(on), None), Some(chosen)) == Some(Setting(on, chosen.profiles))
    ensures change.profiles.Some? && Clean(change.profiles.value) ==>
              AgentDistroChoice(change, stored).value.profiles == change.profiles.value
  {
    if AgentDistroChoice(change, stored).Some? {
      CleanIsFixed(AgentDistroChoice(change, stored).value.profiles);
    }
    if change.profiles.Some? {
      CleanIsFixed(change.profiles.value);
    }
  }

  // ---------- edits ----------

  function WithAdded(profiles: seq<string>, text: string): Option<seq<string>> {
    var ref := Trim(text);
    if ref == "" || ref in profiles then None else Some(profiles + [ref])
  }

  function Without<T>(l: seq<T>, i: nat): seq<T>
    requires i < |l|
  {
    l[..i] + l[i + 1..]
  }

  /** The list without the entry at `index`; an index outside the list removes nothing. */
  function WithRemoved(profiles: seq<string>, index: int): seq<string> {
    if 0 <= index < |profiles| then Without(profiles, index) else profiles
  }

  function Clamp(n: int, last: int): (c: nat)
    ensures last >= 0 ==> c <= last
    ensures 0 <= n <= last ==> c == n
  {
    if last < 0 || n < 0 then 0 else if n > last then last else n
  }

  function Inserted<T>(l: seq<T>, i: nat, x: T): seq<T>
    requires i <= |l|
  {
    l[..i] + [x] + l[i..]
  }

  /** The list with the entry at `from` taken out and put back at `to`, both clamped into it. */
  function Moved(profiles: seq<string>, from: int, to: int): (r: seq<string>)
    ensures |r| == |profiles|
  {
    var src, dst := Clamp(from, |profiles| - 1), Clamp(to, |profiles| - 1);
    if src == dst || src >= |profiles| then profiles
    else Inserted(Without(profiles, src), dst, profiles[src])
  }

  /** The original's two splices on a copy of the list: the entry is where it was sent, and the others
      are left in their order. */
  method ProfilesWithMoved(profiles: seq<string>, from: int, to: int) returns (out: seq<string>)
    ensures profiles == [] ==> out == []
    ensures profiles != [] ==>
              var src, dst := Clamp(from, |profiles| - 1), Clamp(to, |profiles| - 1);
              |out| == |profiles| && out[dst] == profiles[src] && Without(out, dst) == Without(profiles, src)
    ensures out == Moved(profiles, from, to)
  {
    if profiles != [] {
      MovePlaces(profiles, from, to);
    }
    var last := |profiles| - 1;
    var src, dst := Clamp(from, last), Clamp(to, last);
    out := profiles;
    if src == dst || src >= |out| {
      return;
    }
    var moved := out[src];
    out := out[..src] + out[src + 1..];
    out := out[..dst] + [moved] + out[dst..];
  }

  lemma InsertedWithout<T>(l: seq<T>, i: nat, x: T)
    requires i <= |l|
    ensures Without(Inserted(l, i, x), i) == l && Inserted(l, i, x)[i] == x
  {
  }

  lemma WithoutInserted<T>(l: seq<T>, i: nat)
    requires i < |l|
    ensures Inserted(Without(l, i), i, l[i]) == l
  {
  }

  /** A move puts the one entry where it was sent, and leaves the others in their order. */
  lemma MovePlaces(profiles: seq<string>, from: int, to: int)
    requires profiles != []
    ensures var src, dst := Clamp(from, |profiles| - 1), Clamp(to, |profiles| - 1);
            var r := Moved(profiles, from, to);
            r[dst] == profiles[src] && Without(r, dst) == Without(profiles, src)
  {
    var src, dst := Clamp(from, |profiles| - 1), Clamp(to, |profiles| - 1);
    if src != dst {
      InsertedWithout(Without(profiles, src), dst, profiles[src]);
    }
  }

  /** Moving an entry there and back restores the list, wherever the indices point. */
  lemma MoveBack(profiles: seq<string>, from: int, to: int)
    ensures Moved(Moved(profiles, from, to), to, from) == profiles
  {
    if profiles != [] {
      var src, dst := Clamp(from, |profiles| - 1), Clamp(to, |profiles| - 1);
      if src != dst {
        MovePlaces(profiles, from, to);
        WithoutInserted(profiles, src);
      }
    }
  }

  lemma MoveKeepsEntries(profiles: seq<string>, from: int, to: int)
    ensures multiset(Moved(profiles, from, to)) == multiset(profiles)
  {
    var src, dst := Clamp(from, |profiles| - 1), Clamp(to, |profiles| - 1);
    if src != dst && src < |profiles| {
      var rest := Without(profiles, src);
      assert profiles == profiles[..src] + [profiles[src]] + profiles[src + 1..];
      assert rest == rest[..dst] + rest[dst..];
      assert multiset(profiles) == multiset(rest) + multiset{profiles[src]};
      assert Moved(profiles, from, to) == rest[..dst] + [profiles[src]] + rest[dst..];
    }
  }

  lemma CleanIsDistinct(l: seq<string>, m: seq<string>)
    requires multiset(l) == multiset(m) && Clean(l)
    ensures Clean(m)
  {
    forall i, j | 0 <= i < j < |m| ensures m[i] != m[j] {
      if m[i] == m[j] {
        assert m == m[..i] + [m[i]] + m[i + 1..j] + [m[j]] + m[j + 1..];
        assert multiset(m)[m[i]] >= 2;
        AtMostOnce(l, m[i]);
      }
    }
    forall i | 0 <= i < |m| ensures Trimmed(m[i]) && m[i] != "" {
      assert m[i] in multiset(l);
    }
  }

  lemma {:induction false} AtMostOnce(l: seq<string>, x: string)
    requires forall i, j :: 0 <= i < j < |l| ==> l[i] != l[j]
    ensures multiset(l)[x] <= 1
  {
    if |l| > 0 {
      assert l == [l[0]] + l[1..];
      AtMostOnce(l[1..], x);
      if l[0] == x {
        assert x !in l[1..];
      }
    }
  }

  lemma AddKeepsClean(l: seq<string>, text: string)
    requires Clean(l)
    ensures WithAdded(l, text).Some? ==> Clean(WithAdded(l, text).value)
    ensures WithAdded(l, text).None? <==> Normalized(l + [text]) == l
  {
    CleanIsFixed(l);
    assert (l + [text])[..|l|] == l;
    var ref := Trim(text);
    assert Normalized(l + [text]) == if ref == "" || ref in l then l else l + [ref];
  }

  lemma RemoveKeepsClean(l: seq<string>, index: int)
    requires Clean(l)
    ensures Clean(WithRemoved(l, index))
    ensures 0 <= index < |l| ==> l[index] !in WithRemoved(l, index)
  {
  }

  lemma MoveKeepsClean(l: seq<string>, from: int, to: int)
    requires Clean(l)
    ensures Clean(Moved(l, from, to))
  {
    MoveKeepsEntries(l, from, to);
    CleanIsDistinct(l, Moved(l, from, to));
  }

  /** Adding, removing and moving keep a written list written, so writing it out again through the
      setting changes nothing; an add is refused exactly when writing it would change nothing. */
  lemma EditsStayWritten(l: seq<string>, edited: seq<string>, text: string, index: int, from: int, to: int, stored: Option<Setting>)
    requires Clean(l)
    requires Some(edited) == WithAdded(l, text) || edited == WithRemoved(l, index) || edited == Moved(l, from, to)
    ensures Clean(edited) && Normalized(edited) == edited
    ensures AgentDistroChoice(Change(None, Some(edited)), stored)
            == Some(Setting(SettingOf(stored).enabled, edited))
    ensures WithAdded(l, text).None? <==> Normalized(l + [text]) == l
  {
    AddKeepsClean(l, text);
    RemoveKeepsClean(l, index);
    MoveKeepsClean(l, from, to);
    CleanIsFixed(edited);
  }

  /** An add puts the trimmed reference at the end and keeps the rest; it is refused exactly when there is
      nothing to add. */
  lemma AddedExactly(profiles: seq<string>, text: string)
    ensures WithAdded(profiles, text).Some? <==> Trim(text) != "" && Trim(text) !in profiles
    ensures WithAdded(profiles, text).Some? ==>
              var r := WithAdded(profiles, text).value;
              |r| == |profiles| + 1 && profiles <= r && r[|profiles|] == Trim(text)
  {
  }

  /** A remove takes out the one entry and closes the gap; an index outside the list takes out nothing. */
  lemma RemovedExactly(profiles: seq<string>, index: int)
    ensures var r := WithRemoved(profiles, index);
            if 0 <= index < |profiles| then
              |r| == |profiles| - 1
              && (forall i :: 0 <= i < index ==> r[i] == profiles[i])
              && (forall i :: index <= i < |r| ==> r[i] == profiles[i + 1])
            else r == profiles
  {
  }

  /** A choice writes what it gives and keeps the rest of what was stored; nothing stored is off and empty. */
  lemma ChoiceKeepsTheRest(change: Change, stored: Option<Setting>)
    requires change.on.Some? || change.profiles.Some?
    ensures var chosen := AgentDistroChoice(change, stored);
            && chosen.Some?
            && (change.on.Some? ==> chosen.value.enabled == change.on.value)
            && (change.on.None? ==> chosen.value.enabled == (stored.Some? && stored.value.enabled))
            && (change.profiles.Some? ==> chosen.value.profiles == Normalized(change.profiles.value))
            && (change.profiles.None? ==>
                  chosen.value.profiles == if stored.Some? then Normalized(stored.value.profiles) else [])
  {
  }

  function Distance(a: int, b: int): nat {
    if a < b then b - a else a - b
  }

  /** A clamped index is the one in the list that is nearest. */
  lemma ClampIsNearest(n: int, last: int, other: int)
    requires 0 <= other <= last
    ensures Clamp(n, last) <= last && Distance(n, Clamp(n, last)) <= Distance(n, other)
  {
  }
}
