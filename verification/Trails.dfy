/** Persisted recency trails: the tolerant list reader and the monotonic stamp. */
module Trails {
  import opened Text

  // ---------- the tolerant reader ----------

  /** What `JSON.parse` made of the stored text: an array's rows, another value, or a throw. */
  datatype Stored<T> = Rows(rows: seq<T>) | NotAnArray | Malformed

  ghost function Ids<T>(items: seq<T>, identity: T -> string): set<string> {
    set i | 0 <= i < |items| :: identity(items[i])
  }

  lemma IdsGrow<T>(items: seq<T>, item: T, identity: T -> string)
    ensures Ids(items + [item], identity) == Ids(items, identity) + {identity(item)}
  {
    var more := items + [item];
    assert more[|items|] == item;
    forall id | id in Ids(items, identity) ensures id in Ids(more, identity) {
      var i :| 0 <= i < |items| && identity(items[i]) == id;
      assert more[i] == items[i];
    }
  }

  /** The accepted rows, each identity where it first appears. */
  ghost function FirstAccepted<R, T>(rows: seq<R>, accept: R -> Option<T>, identity: T -> string): seq<T> {
    if |rows| == 0 then []
    else
      var front, ok := FirstAccepted(rows[..|rows| - 1], accept, identity), accept(rows[|rows| - 1]);
      if ok.None? || identity(ok.value) in Ids(front, identity) then front else front + [ok.value]
  }

  function Take<T>(items: seq<T>, cap: nat): seq<T> {
    if |items| <= cap then items else items[..cap]
  }

  /** `None` where the original throws, and the caller's fallback takes over. */
  method ParseTolerantList<R, T>(stored: Stored<R>, accept: R -> Option<T>, identity: T -> string, cap: nat)
    returns (r: Option<seq<T>>)
    ensures r == if stored.Rows? then Some(Take(FirstAccepted(stored.rows, accept, identity), cap)) else None
  {
    if !stored.Rows? {
      return None;
    }
    var data := stored.rows;
    var seen: set<string> := {};
    var out: seq<T> := [];
    for i := 0 to |data|
      invariant out == FirstAccepted(data[..i], accept, identity)
      invariant seen == Ids(out, identity)
    {
      assert data[..i + 1][..i] == data[..i];
      var ok := accept(data[i]);
      if ok.None? {
        continue;
      }
      var id := identity(ok.value);
      if id in seen {
        continue;
      }
      IdsGrow(out, ok.value, identity);
      seen := seen + {id};
      out := out + [ok.value];
    }
    assert data[..|data|] == data;
    r := Some(Take(out, cap));
  }

  /** A row that costs nothing: rejected, or of an identity accepted before it. */
  ghost predicate Ignored<R, T>(before: seq<R>, row: R, accept: R -> Option<T>, identity: T -> string) {
    accept(row).None? || identity(accept(row).value) in Ids(FirstAccepted(before, accept, identity), identity)
  }

  /** One bad row never costs another: with or without a rejected or duplicate row, anywhere, the
      list reads the same. */
  lemma {:induction false} IgnoredRowsChangeNothing<R, T>(
    before: seq<R>, row: R, after: seq<R>, accept: R -> Option<T>, identity: T -> string)
    requires Ignored(before, row, accept, identity)
    ensures FirstAccepted(before + [row] + after, accept, identity) == FirstAccepted(before + after, accept, identity)
  {
    if |after| == 0 {
      assert (before + [row] + after)[..|before|] == before && before + after == before;
    } else {
      var front := after[..|after| - 1];
      assert (before + [row] + after)[..|before + [row] + after| - 1] == before + [row] + front;
      assert (before + after)[..|before + after| - 1] == before + front;
      IgnoredRowsChangeNothing(before, row, front, accept, identity);
    }
  }

  ghost predicate DistinctBy<T>(items: seq<T>, identity: T -> string) {
    forall i, j :: 0 <= i < j < |items| ==> identity(items[i]) != identity(items[j])
  }

  lemma {:induction false} FirstAcceptedDistinct<R, T>(rows: seq<R>, accept: R -> Option<T>, identity: T -> string)
    ensures DistinctBy(FirstAccepted(rows, accept, identity), identity)
  {
    if |rows| > 0 {
      var front := FirstAccepted(rows[..|rows| - 1], accept, identity);
      FirstAcceptedDistinct(rows[..|rows| - 1], accept, identity);
      var ok := accept(rows[|rows| - 1]);
      if ok.Some? && identity(ok.value) !in Ids(front, identity) {
        ExtendDistinct(front, ok.value, identity);
      }
    }
  }

  lemma ExtendDistinct<T>(items: seq<T>, item: T, identity: T -> string)
    requires DistinctBy(items, identity) && identity(item) !in Ids(items, identity)
    ensures DistinctBy(items + [item], identity)
  {
    forall i | 0 <= i < |items| ensures identity(items[i]) != identity(item) {
      assert identity(items[i]) in Ids(items, identity);
    }
  }

  /** Every accepted identity is read, by its first row: nothing accepted is lost but to the cap. */
  lemma {:induction false} EveryIdentityIsRead<R, T>(rows: seq<R>, k: nat, accept: R -> Option<T>, identity: T -> string)
    requires k < |rows| && accept(rows[k]).Some?
    ensures identity(accept(rows[k]).value) in Ids(FirstAccepted(rows, accept, identity), identity)
    ensures (forall j :: 0 <= j < k && accept(rows[j]).Some? ==>
                           identity(accept(rows[j]).value) != identity(accept(rows[k]).value))
            ==> accept(rows[k]).value in FirstAccepted(rows, accept, identity)
  {
    var front := rows[..|rows| - 1];
    var was := FirstAccepted(front, accept, identity);
    var r := FirstAccepted(rows, accept, identity);
    var ok := accept(rows[k]).value;
    if k < |front| {
      EveryIdentityIsRead(front, k, accept, identity);
      var i :| 0 <= i < |was| && identity(was[i]) == identity(ok);
      assert r[i] == was[i];
    } else if identity(ok) in Ids(was, identity) {
      var i :| 0 <= i < |was| && identity(was[i]) == identity(ok);
      ReadRowExists(front, was[i], accept, identity);
    } else {
      assert r[|was|] == ok;
    }
  }

  lemma {:induction false} ReadRowExists<R, T>(rows: seq<R>, item: T, accept: R -> Option<T>, identity: T -> string)
    requires item in FirstAccepted(rows, accept, identity)
    ensures exists j :: 0 <= j < |rows| && accept(rows[j]) == Some(item)
  {
    var front := rows[..|rows| - 1];
    if item in FirstAccepted(front, accept, identity) {
      ReadRowExists(front, item, accept, identity);
      var j :| 0 <= j < |front| && accept(front[j]) == Some(item);
      assert accept(rows[j]) == Some(item);
    } else {
      assert accept(rows[|rows| - 1]) == Some(item);
    }
  }

  /** A clean short list is returned whole. */
  lemma {:induction false} CleanListIsWhole<T>(rows: seq<T>, accept: T -> Option<T>, identity: T -> string, cap: nat)
    requires forall i :: 0 <= i < |rows| ==> accept(rows[i]) == Some(rows[i])
    requires forall i, j :: 0 <= i < j < |rows| ==> identity(rows[i]) != identity(rows[j])
    ensures FirstAccepted(rows, accept, identity) == rows
    ensures |rows| <= cap ==> Take(FirstAccepted(rows, accept, identity), cap) == rows
  {
    if |rows| > 0 {
      CleanListIsWhole(rows[..|rows| - 1], accept, identity, cap);
    }
  }

  // ---------- stamps ----------

  const MAX_STAMP_SKEW_MS := 365.0 * 24.0 * 60.0 * 60.0 * 1000.0

  datatype Visit = Visit(key: string, at: real)

  function Newest(trail: seq<Visit>): (m: Option<real>)
    ensures m.None? <==> trail == []
    ensures forall i :: 0 <= i < |trail| ==> trail[i].at <= m.value
    ensures m.Some? ==> exists i :: 0 <= i < |trail| && trail[i].at == m.value
  {
    if |trail| == 0 then None
    else
      var front, last := Newest(trail[..|trail| - 1]), trail[|trail| - 1].at;
      if front.Some? && front.value > last
      then
        assert exists i :: 0 <= i < |trail| && trail[i].at == front.value by {
          var i :| 0 <= i < |trail[..|trail| - 1]| && trail[..|trail| - 1][i].at == front.value;
          assert trail[i].at == front.value;
        }
        front
      else
        assert trail[|trail| - 1].at == last;
        Some(last)
  }

  function MonotonicStamp(rest: seq<Visit>, at: real): (stamp: real)
    ensures stamp >= at && forall i :: 0 <= i < |rest| ==> rest[i].at < stamp
  {
    var newest := Newest(rest);
    if newest.Some? && at <= newest.value then newest.value + 1.0 else at
  }

  function OthersThan(trail: seq<Visit>, key: string): (rest: seq<Visit>)
    ensures forall v :: v in rest <==> v in trail && v.key != key
    ensures |rest| <= |trail|
  {
    if |trail| == 0 then []
    else
      var front := OthersThan(trail[..|trail| - 1], key);
      if trail[|trail| - 1].key == key then front else front + [trail[|trail| - 1]]
  }

  /** One visit: its key moves to the front with a fresh stamp, and the trail is capped. */
  function Promote(trail: seq<Visit>, key: string, clock: real, cap: nat): seq<Visit> {
    var rest := OthersThan(trail, key);
    Take([Visit(key, MonotonicStamp(rest, clock))] + rest, cap)
  }

  predicate DistinctStamps(trail: seq<Visit>) {
    forall i, j :: 0 <= i < j < |trail| ==> trail[i].at != trail[j].at
  }

  predicate NewestFirst(trail: seq<Visit>) {
    forall i :: 0 < i < |trail| ==> trail[i].at < trail[0].at
  }

  /** Two places of what a visit leaves are two places of the trail, in the same order. */
  lemma {:induction false} OthersKeepPlaces(trail: seq<Visit>, key: string, i: nat, j: nat)
    returns (p: nat, q: nat)
    requires i < j < |OthersThan(trail, key)|
    ensures p < q < |trail| && trail[p] == OthersThan(trail, key)[i] && trail[q] == OthersThan(trail, key)[j]
  {
    var front := trail[..|trail| - 1];
    var kept := OthersThan(front, key);
    if j < |kept| {
      p, q := OthersKeepPlaces(front, key, i, j);
    } else {
      assert kept[i] in front;
      p :| 0 <= p < |front| && front[p] == kept[i];
      q := |front|;
    }
  }

  /** Whatever the trail holds, ties included, the visit just made is first and strictly the newest. */
  lemma PromoteIsNewest(trail: seq<Visit>, key: string, clock: real, cap: nat)
    ensures NewestFirst(Promote(trail, key, clock, cap))
    ensures cap > 0 ==> Promote(trail, key, clock, cap) != [] && Promote(trail, key, clock, cap)[0].key == key
  {
  }

  lemma PromoteTies(trail: seq<Visit>, key: string, clock: real, cap: nat, i: nat, j: nat)
    returns (p: nat, q: nat)
    requires i < j < |Promote(trail, key, clock, cap)|
    requires Promote(trail, key, clock, cap)[i].at == Promote(trail, key, clock, cap)[j].at
    ensures p < q < |trail|
    ensures trail[p] == Promote(trail, key, clock, cap)[i] && trail[q] == Promote(trail, key, clock, cap)[j]
  {
    PromoteIsNewest(trail, key, clock, cap);
    var rest := OthersThan(trail, key);
    assert i > 0 && Promote(trail, key, clock, cap)[i] == rest[i - 1] && Promote(trail, key, clock, cap)[j] == rest[j - 1];
    p, q := OthersKeepPlaces(trail, key, i - 1, j - 1);
  }

  function AfterVisits(trail: seq<Visit>, visits: seq<Visit>, cap: nat): seq<Visit> {
    if |visits| == 0 then trail
    else
      var last := visits[|visits| - 1];
      Promote(AfterVisits(trail, visits[..|visits| - 1], cap), last.key, last.at, cap)
  }

  /** Over any visits to any trail, whatever the clock read at each, stalled or running backwards, the
      last visit is first and its stamp strictly the largest. */
  lemma LastVisitIsNewest(trail: seq<Visit>, visits: seq<Visit>, cap: nat)
    requires |visits| > 0
    ensures NewestFirst(AfterVisits(trail, visits, cap))
    ensures cap > 0 ==> AfterVisits(trail, visits, cap) != []
                        && AfterVisits(trail, visits, cap)[0].key == visits[|visits| - 1].key
  {
    var last := visits[|visits| - 1];
    PromoteIsNewest(AfterVisits(trail, visits[..|visits| - 1], cap), last.key, last.at, cap);
  }

  /** Visits never make a tie: two entries with one stamp are two entries the trail began with. */
  lemma {:induction false} TiesAreOld(trail: seq<Visit>, visits: seq<Visit>, cap: nat, i: nat, j: nat)
    returns (p: nat, q: nat)
    requires i < j < |AfterVisits(trail, visits, cap)|
    requires AfterVisits(trail, visits, cap)[i].at == AfterVisits(trail, visits, cap)[j].at
    ensures p < q < |trail|
    ensures trail[p] == AfterVisits(trail, visits, cap)[i] && trail[q] == AfterVisits(trail, visits, cap)[j]
  {
    if |visits| == 0 {
      p, q := i, j;
    } else {
      var last := visits[|visits| - 1];
      p, q := PromoteTies(AfterVisits(trail, visits[..|visits| - 1], cap), last.key, last.at, cap, i, j);
      p, q := TiesAreOld(trail, visits[..|visits| - 1], cap, p, q);
    }
  }

  /** So stamps that are distinct stay distinct. */
  lemma StampsStayDistinct(trail: seq<Visit>, visits: seq<Visit>, cap: nat)
    requires DistinctStamps(trail)
    ensures DistinctStamps(AfterVisits(trail, visits, cap))
  {
    var r := AfterVisits(trail, visits, cap);
    forall i, j | 0 <= i < j < |r| ensures r[i].at != r[j].at {
      if r[i].at == r[j].at {
        var p, q := TiesAreOld(trail, visits, cap, i, j);
        assert false;
      }
    }
  }

  /** A stamp never runs further ahead of the clock than one per visit: with `bound` above the trail and
      every clock reading, no stamp passes `bound` plus the number of visits. */
  lemma {:induction false} StampsStayNear(trail: seq<Visit>, visits: seq<Visit>, cap: nat, bound: real)
    requires forall v :: v in trail ==> v.at <= bound
    requires forall i :: 0 <= i < |visits| ==> visits[i].at <= bound
    ensures forall v :: v in AfterVisits(trail, visits, cap) ==> v.at <= bound + |visits| as real
  {
    if |visits| > 0 {
      var last := visits[|visits| - 1];
      var before := AfterVisits(trail, visits[..|visits| - 1], cap);
      StampsStayNear(trail, visits[..|visits| - 1], cap, bound);
      PromoteStaysNear(before, last.key, last.at, cap, bound + (|visits| - 1) as real);
    }
  }

  lemma PromoteStaysNear(trail: seq<Visit>, key: string, clock: real, cap: nat, bound: real)
    requires clock <= bound && forall v :: v in trail ==> v.at <= bound
    ensures forall v :: v in Promote(trail, key, clock, cap) ==> v.at <= bound + 1.0
  {
    var rest := OthersThan(trail, key);
    assert forall i :: 0 <= i < |rest| ==> rest[i] in rest;
    assert MonotonicStamp(rest, clock) <= bound + 1.0;
  }

  /** The accept window of a persisted stamp. */
  predicate IsSaneStamp(v: real, now: real) {
    v >= 0.0 && v <= now + MAX_STAMP_SKEW_MS
  }

  predicate Sane(trail: seq<Visit>, now: real) {
    forall i :: 0 <= i < |trail| ==> IsSaneStamp(trail[i].at, now)
  }

  /** A visit leaves a sane trail sane exactly when no other entry is within a millisecond of the end of
      the window at or past the clock. */
  lemma VisitStaysSaneExactly(trail: seq<Visit>, key: string, clock: real, cap: nat, now: real)
    requires Sane(trail, now) && IsSaneStamp(clock, now) && cap > 0
    ensures Sane(Promote(trail, key, clock, cap), now) <==>
            forall v :: v in trail && v.key != key && clock <= v.at ==> v.at + 1.0 <= now + MAX_STAMP_SKEW_MS
  {
    var rest := OthersThan(trail, key);
    var stamp := MonotonicStamp(rest, clock);
    var r := Promote(trail, key, clock, cap);
    assert r[0] == Visit(key, stamp);
    forall i | 0 <= i < |rest| ensures IsSaneStamp(rest[i].at, now) {
      assert rest[i] in trail;
    }
    assert Sane(r, now) <==> IsSaneStamp(stamp, now);
    if stamp > now + MAX_STAMP_SKEW_MS {
      var i :| 0 <= i < |rest| && rest[i].at == Newest(rest).value;
      assert rest[i] in trail;
    } else {
      forall v | v in trail && v.key != key && clock <= v.at ensures v.at + 1.0 <= now + MAX_STAMP_SKEW_MS {
        assert v in rest;
      }
    }
  }

  /** Re-stamping can leave the window: the newest entry a reader accepts, at the very end of it, pushes
      the next visit past it, and that visit is dropped when it is read back. */
  lemma SkewedTrailLeavesTheWindow(now: real)
    requires now >= 0.0
    ensures var trail := [Visit("a", now + MAX_STAMP_SKEW_MS)];
            Sane(trail, now) && !Sane(AfterVisits(trail, [Visit("b", now)], 50), now)
            && !IsSaneStamp(AfterVisits(trail, [Visit("b", now)], 50)[0].at, now)
  {
    var trail, visit := [Visit("a", now + MAX_STAMP_SKEW_MS)], Visit("b", now);
    assert trail[0] in trail;
    assert [visit][..0] == [];
    assert AfterVisits(trail, [], 50) == trail;
    assert AfterVisits(trail, [visit], 50) == Promote(trail, "b", now, 50);
    VisitStaysSaneExactly(trail, "b", now, 50, now);
    assert trail[0].key != "b";
    var r := Promote(trail, "b", now, 50);
    assert trail[0] in OthersThan(trail, "b");
    var rest := OthersThan(trail, "b");
    var k :| 0 <= k < |rest| && rest[k] == trail[0];
    assert r[0].at > trail[0].at;
  }

  /** With one millisecond of the window left for each visit, a trail stays sane: entries past `now`
      included, under clocks that may themselves be past it. */
  lemma RestampedStaysSane(trail: seq<Visit>, visits: seq<Visit>, cap: nat, now: real, bound: real)
    requires forall v :: v in trail ==> 0.0 <= v.at <= bound
    requires forall i :: 0 <= i < |visits| ==> 0.0 <= visits[i].at <= bound
    requires bound + |visits| as real <= now + MAX_STAMP_SKEW_MS
    ensures Sane(AfterVisits(trail, visits, cap), now)
  {
    var r := AfterVisits(trail, visits, cap);
    StampsStayNear(trail, visits, cap, bound);
    StampsStayPositive(trail, visits, cap);
    assert forall i :: 0 <= i < |r| ==> r[i] in r;
  }

  lemma {:induction false} StampsStayPositive(trail: seq<Visit>, visits: seq<Visit>, cap: nat)
    requires forall v :: v in trail ==> v.at >= 0.0
    requires forall i :: 0 <= i < |visits| ==> visits[i].at >= 0.0
    ensures forall v :: v in AfterVisits(trail, visits, cap) ==> v.at >= 0.0
  {
    if |visits| > 0 {
      StampsStayPositive(trail, visits[..|visits| - 1], cap);
    }
  }

  // ---------- what a visit and the cap leave ----------

  /** The cap keeps the first entries, as many as it allows. */
  lemma TakeExactly<T>(items: seq<T>, cap: nat)
    ensures Take(items, cap) <= items
    ensures |Take(items, cap)| == if |items| <= cap then |items| else cap
  {
  }

  lemma {:induction false} OthersConcat(a: seq<Visit>, b: seq<Visit>, key: string)
    ensures OthersThan(a + b, key) == OthersThan(a, key) + OthersThan(b, key)
  {
    if |b| == 0 {
      assert a + b == a;
    } else {
      assert (a + b)[..|a + b| - 1] == a + b[..|b| - 1];
      OthersConcat(a, b[..|b| - 1], key);
    }
  }

  /** A visit takes its own key's entry out of the trail and keeps every other, in order. */
  lemma OthersExactly(a: seq<Visit>, v: Visit, b: seq<Visit>, key: string)
    ensures OthersThan(a + [v] + b, key)
            == OthersThan(a, key) + (if v.key == key then [] else [v]) + OthersThan(b, key)
  {
    OthersConcat(a + [v], b, key);
    OthersConcat(a, [v], key);
    assert OthersThan([v][..0], key) == [];
  }

  /** After a visit come the others, but for those the cap drops at the end. */
  lemma VisitKeepsOthers(trail: seq<Visit>, key: string, clock: real, cap: nat)
    requires cap > 0
    ensures var r, rest := Promote(trail, key, clock, cap), OthersThan(trail, key);
            && r != [] && r[0].key == key && r[1..] <= rest
            && |r| == if 1 + |rest| <= cap then 1 + |rest| else cap
  {
    var r, rest := Promote(trail, key, clock, cap), OthersThan(trail, key);
    TakeExactly([Visit(key, MonotonicStamp(rest, clock))] + rest, cap);
    assert forall i :: 1 <= i < |r| ==> r[i] == rest[i - 1];
  }

  /** The accept window ends a year of 365 days past `now`, in milliseconds. */
  lemma WindowExactly(v: real, now: real)
    ensures IsSaneStamp(v, now) <==> 0.0 <= v <= now + 31536000000.0
  {
  }
}
