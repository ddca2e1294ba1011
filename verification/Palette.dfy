/** The palette's render keys: each entry paired with an identity unique across the list. */
module Palette {
  import opened Text
  import opened HostKeys
  import opened Json

  /** A render entry, with the fields its key reads and where it sits in the list. */
  datatype DisplayEntry =
    | Header(section: string)
    | HostHeader(name: string, count: nat, hostKey: Option<HostKey>)
    | Row(kind: string, hostKey: Option<HostKey>, terminalId: Option<string>, id: Option<string>, name: string,
          index: nat)

  datatype KeyedEntry = KeyedEntry(key: string, entry: DisplayEntry)

  function RowName(e: DisplayEntry): string
    requires e.Row?
  {
    if e.terminalId.Some? then e.terminalId.value
    else if e.id.Some? then e.id.value
    else e.name
  }

  function HostAtom(hostKey: Option<HostKey>): Atom {
    if hostKey.Some? then Str(EncodeHostKey(hostKey.value)) else Null
  }

  function KeyFields(e: DisplayEntry): seq<Atom> {
    match e
    case Header(section) => [Str("header"), Str(section)]
    case HostHeader(name, _, hostKey) =>
      [Str("host-header"), if hostKey.Some? then HostAtom(hostKey) else Str(name)]
    case Row(kind, hostKey, _, _, _, _) => [Str("row"), Str(kind), HostAtom(hostKey), Str(RowName(e))]
  }

  /** The identity an entry wants; two entries may want the same one. */
  function EntryKey(e: DisplayEntry): string {
    JsonText(KeyFields(e))
  }

  function Bases(entries: seq<DisplayEntry>): (bases: seq<string>)
    ensures |bases| == |entries| && forall i :: 0 <= i < |entries| ==> bases[i] == EntryKey(entries[i])
  {
    seq(|entries|, i requires 0 <= i < |entries| => EntryKey(entries[i]))
  }

  function Suffixed(base: string, nth: nat): string {
    if nth == 0 then base else base + "#" + Decimal(nth)
  }

  /** How many earlier entries share the base of entry `i`. */
  ghost function Twin(bases: seq<string>, i: nat): nat
    requires i < |bases|
  {
    multiset(bases[..i])[bases[i]]
  }

  ghost function KeyAt(bases: seq<string>, i: nat): string
    requires i < |bases|
  {
    Suffixed(bases[i], Twin(bases, i))
  }

  /** The counting walk: one map from base to how often it was met. */
  method KeyBases(bases: seq<string>) returns (keys: seq<string>)
    ensures |keys| == |bases|
    ensures forall i :: 0 <= i < |bases| ==> keys[i] == KeyAt(bases, i)
  {
    var seen: map<string, nat> := map[];
    keys := [];
    for n := 0 to |bases|
      invariant |keys| == n
      invariant forall i :: 0 <= i < n ==> keys[i] == KeyAt(bases, i)
      invariant forall b :: Tally(seen, b) == multiset(bases[..n])[b]
    {
      var base := bases[n];
      var nth := Tally(seen, base);
      assert bases[..n + 1] == bases[..n] + [base];
      seen := seen[base := nth + 1];
      keys := keys + [Suffixed(base, nth)];
    }
  }

  method KeyDisplayEntries(entries: seq<DisplayEntry>) returns (keyed: seq<KeyedEntry>)
    ensures |keyed| == |entries|
    ensures forall i :: 0 <= i < |entries| ==>
                          keyed[i].entry == entries[i] && keyed[i].key == KeyAt(Bases(entries), i)
  {
    var keys := KeyBases(Bases(entries));
    keyed := seq(|entries|, i requires 0 <= i < |entries| => KeyedEntry(keys[i], entries[i]));
  }

  function Tally(seen: map<string, nat>, base: string): nat {
    if base in seen then seen[base] else 0
  }

  // ---------- keys are distinct ----------

  /** The part of a key up to its last `]`: a key's base. */
  function BaseOf(key: string): string {
    if key == "" || key[|key| - 1] == ']' then key else BaseOf(key[..|key| - 1])
  }

  lemma {:induction false} BaseOfExtended(base: string, tail: string)
    requires base != "" && base[|base| - 1] == ']'
    requires forall i :: 0 <= i < |tail| ==> tail[i] != ']'
    ensures BaseOf(base + tail) == base
  {
    if tail == "" {
      assert base + tail == base;
    } else {
      assert (base + tail)[..|base + tail| - 1] == base + tail[..|tail| - 1];
      BaseOfExtended(base, tail[..|tail| - 1]);
    }
  }

  /** A key says which base and which ordinal made it. */
  lemma SuffixedIsInjective(b1: string, n1: nat, b2: string, n2: nat)
    requires b1 != "" && b1[|b1| - 1] == ']' && b2 != "" && b2[|b2| - 1] == ']'
    ensures Suffixed(b1, n1) == Suffixed(b2, n2) <==> b1 == b2 && n1 == n2
  {
    if Suffixed(b1, n1) == Suffixed(b2, n2) {
      SuffixedBase(b1, n1);
      SuffixedBase(b2, n2);
      DecimalDenotes(n1);
      DecimalDenotes(n2);
      if n1 > 0 && n2 > 0 {
        assert Suffixed(b1, n1)[|b1| + 1..] == Decimal(n1);
        assert Suffixed(b2, n2)[|b2| + 1..] == Decimal(n2);
      }
    }
  }

  lemma SuffixedBase(base: string, nth: nat)
    requires base != "" && base[|base| - 1] == ']'
    ensures BaseOf(Suffixed(base, nth)) == base
    ensures nth > 0 ==> |Suffixed(base, nth)| > |base|
  {
    if nth > 0 {
      BaseOfExtended(base, "#" + Decimal(nth));
      assert Suffixed(base, nth) == base + ("#" + Decimal(nth));
    }
  }

  lemma TwinsCountUp(bases: seq<string>, i: nat, j: nat)
    requires i < j < |bases| && bases[i] == bases[j]
    ensures Twin(bases, i) < Twin(bases, j)
  {
    assert bases[..j] == bases[..i] + [bases[i]] + bases[i + 1..j];
  }

  /** However many twins a list holds, no two of its entries get the same key. */
  lemma KeysAreDistinct(entries: seq<DisplayEntry>, i: nat, j: nat)
    requires i < j < |entries|
    ensures KeyAt(Bases(entries), i) != KeyAt(Bases(entries), j)
  {
    var bases := Bases(entries);
    SuffixedIsInjective(bases[i], Twin(bases, i), bases[j], Twin(bases, j));
    if bases[i] == bases[j] {
      TwinsCountUp(bases, i, j);
    }
  }

  // ---------- keys survive reordering ----------

  ghost predicate IsKey(bases: seq<string>, key: string) {
    exists i :: 0 <= i < |bases| && key == KeyAt(bases, i)
  }

  /** Each base comes with every ordinal below its number of occurrences. */
  lemma {:induction false} EveryOrdinalOccurs(bases: seq<string>, base: string, nth: nat) returns (i: nat)
    requires nth < multiset(bases)[base]
    ensures i < |bases| && bases[i] == base && Twin(bases, i) == nth
  {
    var last := |bases| - 1;
    var front := bases[..last];
    assert bases == front + [bases[last]];
    if bases[last] == base && multiset(front)[base] == nth {
      i := last;
    } else {
      i := EveryOrdinalOccurs(front, base, nth);
      assert front[..i] == bases[..i];
    }
  }

  lemma KeysFromCounts(from: seq<string>, to: seq<string>, key: string)
    requires multiset(from) == multiset(to) && IsKey(from, key)
    ensures IsKey(to, key)
  {
    var i :| 0 <= i < |from| && key == KeyAt(from, i);
    TwinsAreCounted(from, i);
    var j := EveryOrdinalOccurs(to, from[i], Twin(from, i));
    assert KeyAt(to, j) == key;
  }

  /** The set of keys depends only on which identities the list holds and how often. */
  lemma KeysDependOnIdentities(a: seq<DisplayEntry>, b: seq<DisplayEntry>, key: string)
    requires multiset(Bases(a)) == multiset(Bases(b))
    ensures IsKey(Bases(a), key) <==> IsKey(Bases(b), key)
  {
    if IsKey(Bases(a), key) {
      KeysFromCounts(Bases(a), Bases(b), key);
    }
    if IsKey(Bases(b), key) {
      KeysFromCounts(Bases(b), Bases(a), key);
    }
  }

  /** The entry wherever it sits: a reordering changes a row's index and nothing else of it. */
  function Unplaced(e: DisplayEntry): DisplayEntry {
    if e.Row? then e.(index := 0) else e
  }

  function UnplacedAll(entries: seq<DisplayEntry>): (r: seq<DisplayEntry>)
    ensures |r| == |entries| && forall i :: 0 <= i < |entries| ==> r[i] == Unplaced(entries[i])
  {
    seq(|entries|, i requires 0 <= i < |entries| => Unplaced(entries[i]))
  }

  lemma UnplacedKeepsKey(e: DisplayEntry)
    ensures EntryKey(Unplaced(e)) == EntryKey(e)
  {
    assert KeyFields(Unplaced(e)) == KeyFields(e);
  }

  lemma UnplacedKeepBases(entries: seq<DisplayEntry>)
    ensures Bases(UnplacedAll(entries)) == Bases(entries)
  {
    forall i | 0 <= i < |entries| ensures Bases(UnplacedAll(entries))[i] == Bases(entries)[i] {
      UnplacedKeepsKey(entries[i]);
    }
  }

  ghost function Images<T, U>(xs: seq<T>, f: T -> U): (r: seq<U>)
    ensures |r| == |xs| && forall i :: 0 <= i < |xs| ==> r[i] == f(xs[i])
  {
    seq(|xs|, i requires 0 <= i < |xs| => f(xs[i]))
  }

  ghost function Dropped<T>(xs: seq<T>, i: nat): seq<T>
    requires i < |xs|
  {
    xs[..i] + xs[i + 1..]
  }

  lemma OneLess<T>(xs: seq<T>, i: nat)
    requires i < |xs|
    ensures multiset(xs) == multiset(Dropped(xs, i)) + multiset{xs[i]}
  {
    assert xs == xs[..i] + [xs[i]] + xs[i + 1..];
  }

  lemma ImagesOfDropped<T, U>(xs: seq<T>, i: nat, f: T -> U)
    requires i < |xs|
    ensures Images(Dropped(xs, i), f) == Dropped(Images(xs, f), i)
  {
  }

  /** A reordering reorders the images. */
  lemma {:induction false} ReorderedImages<T, U>(a: seq<T>, b: seq<T>, f: T -> U)
    requires multiset(a) == multiset(b)
    ensures multiset(Images(a, f)) == multiset(Images(b, f))
    decreases |a|
  {
    assert |a| == |multiset(a)| && |b| == |multiset(b)|;
    if a != [] {
      assert a[0] in multiset(b);
      var j :| 0 <= j < |b| && b[j] == a[0];
      OneLess(a, 0);
      OneLess(b, j);
      assert multiset(Dropped(a, 0)) == multiset(a) - multiset{a[0]} == multiset(Dropped(b, j));
      ReorderedImages(Dropped(a, 0), Dropped(b, j), f);
      ImagesOfDropped(a, 0, f);
      ImagesOfDropped(b, j, f);
      OneLess(Images(a, f), 0);
      OneLess(Images(b, f), j);
    }
  }

  /** Any reordering of the entries keeps the set of keys, so a surface keyed on it keeps its nodes. */
  lemma KeysSurviveReordering(a: seq<DisplayEntry>, b: seq<DisplayEntry>, key: string)
    requires multiset(UnplacedAll(a)) == multiset(UnplacedAll(b))
    ensures IsKey(Bases(a), key) <==> IsKey(Bases(b), key)
  {
    var entryKey := (e: DisplayEntry) => EntryKey(e);
    ReorderedImages(UnplacedAll(a), UnplacedAll(b), entryKey);
    assert Images(UnplacedAll(a), entryKey) == Bases(UnplacedAll(a));
    assert Images(UnplacedAll(b), entryKey) == Bases(UnplacedAll(b));
    UnplacedKeepBases(a);
    UnplacedKeepBases(b);
    KeysDependOnIdentities(a, b, key);
  }

  /** An entry alone in its identity keeps the plain key wherever it moves. */
  lemma AloneKeepsItsKey(entries: seq<DisplayEntry>, i: nat)
    requires i < |entries|
    requires forall j :: 0 <= j < |entries| && j != i ==> EntryKey(entries[j]) != EntryKey(entries[i])
    ensures KeyAt(Bases(entries), i) == EntryKey(entries[i])
  {
    var bases := Bases(entries);
    assert bases[i] !in bases[..i];
  }

  lemma TwinsAreCounted(bases: seq<string>, i: nat)
    requires i < |bases|
    ensures Twin(bases, i) < multiset(bases)[bases[i]]
  {
    assert bases == bases[..i] + [bases[i]] + bases[i + 1..];
  }

  /** What two entries must share to want the same identity: two rows their kind, host and name, two
      section headers their section, two host headers their host, or failing one their name. */
  ghost predicate SameWish(a: DisplayEntry, b: DisplayEntry) {
    match (a, b)
    case (Header(s1), Header(s2)) => s1 == s2
    case (HostHeader(n1, _, h1), HostHeader(n2, _, h2)) =>
      (if h1.Some? then EncodeHostKey(h1.value) else n1) == (if h2.Some? then EncodeHostKey(h2.value) else n2)
    case (Row(k1, h1, _, _, _, _), Row(k2, h2, _, _, _, _)) => k1 == k2 && h1 == h2 && RowName(a) == RowName(b)
    case _ => false
  }

  lemma SameHostAtom(a: Option<HostKey>, b: Option<HostKey>)
    ensures HostAtom(a) == HostAtom(b) <==> a == b
  {
    if a.Some? && b.Some? {
      EqualKeysAreEqual(a.value, b.value);
    }
  }

  lemma SameRowFields(a: DisplayEntry, b: DisplayEntry)
    requires a.Row? && b.Row?
    ensures KeyFields(a) == KeyFields(b) <==> SameWish(a, b)
  {
    SameHostAtom(a.hostKey, b.hostKey);
    var f, g := KeyFields(a), KeyFields(b);
    assert f == g <==> f[1] == g[1] && f[2] == g[2] && f[3] == g[3];
  }

  lemma SameHeaderFields(a: DisplayEntry, b: DisplayEntry)
    requires !a.Row? && !b.Row?
    ensures KeyFields(a) == KeyFields(b) <==> SameWish(a, b)
  {
    var f, g := KeyFields(a), KeyFields(b);
    assert f == g <==> f[0] == g[0] && f[1] == g[1];
    assert "header"[1] != "host-header"[1];
  }

  /** Two entries share a base exactly when they want the same identity: no text of one kind of entry
      can pass for another's. */
  lemma SameIdentity(a: DisplayEntry, b: DisplayEntry)
    ensures EntryKey(a) == EntryKey(b) <==> SameWish(a, b)
  {
    JsonTextIsInjective(KeyFields(a), KeyFields(b));
    if a.Row? && b.Row? {
      SameRowFields(a, b);
    } else if !a.Row? && !b.Row? {
      SameHeaderFields(a, b);
    } else {
      assert |KeyFields(a)| != |KeyFields(b)|;
    }
  }

  /** A row is named by its terminal, or else by its id, or else by what it is displayed as. */
  lemma RowNamesExactly(kind: string, host: Option<HostKey>, terminal: string, id: string, name: string, index: nat)
    ensures forall other :: RowName(Row(kind, host, Some(terminal), other, name, index)) == terminal
    ensures RowName(Row(kind, host, None, Some(id), name, index)) == id
    ensures RowName(Row(kind, host, None, None, name, index)) == name
  {
  }

  /** Entry `j` is the last before `i` with its base. */
  predicate TwinBefore(bases: seq<string>, j: nat, i: nat) {
    j < i < |bases| && bases[j] == bases[i] && forall k :: j < k < i ==> bases[k] != bases[i]
  }

  /** The first of some twins has the plain key, the next ones `#1`, `#2` and so on after it. */
  lemma TwinKeys(bases: seq<string>, i: nat)
    requires i < |bases|
    ensures (forall j :: 0 <= j < i ==> bases[j] != bases[i]) ==> KeyAt(bases, i) == bases[i]
    ensures forall j: nat :: TwinBefore(bases, j, i) ==>
                          KeyAt(bases, i) == bases[i] + "#" + Decimal(Twin(bases, j) + 1)
  {
    if forall j :: 0 <= j < i ==> bases[j] != bases[i] {
      assert bases[i] !in bases[..i];
    }
    forall j: nat | TwinBefore(bases, j, i) ensures Twin(bases, i) == Twin(bases, j) + 1 {
      assert bases[..i] == bases[..j] + [bases[j]] + bases[j + 1..i];
      assert bases[i] !in bases[j + 1..i];
    }
  }

  /** The texts that keys are made of. */
  lemma KeyFieldsExactly(section: string, name: string, count: nat, host: HostKey, row: DisplayEntry)
    requires row.Row?
    ensures KeyFields(Header(section)) == [Str("header"), Str(section)]
    ensures KeyFields(HostHeader(name, count, None)) == [Str("host-header"), Str(name)]
    ensures KeyFields(HostHeader(name, count, Some(host))) == [Str("host-header"), Str(EncodeHostKey(host))]
    ensures KeyFields(row) == [Str("row"), Str(row.kind),
                               if row.hostKey.Some? then Str(EncodeHostKey(row.hostKey.value)) else Null,
                               Str(RowName(row))]
  {
  }
}
