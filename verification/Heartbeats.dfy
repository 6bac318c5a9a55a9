// The latest settled heartbeat of each genesis master: the part of the observation pool
// that decides payouts (first loop of sealedFieldPayees and of sealedFieldWorkWeights in State.ts).
module Heartbeats {
  import opened Events
  import opened Order

  const OBS_LAG: int := 24

  // A genesis master's heartbeat inside the long-lagged window of this epoch.
  predicate Counts(cfg: Config, o: Obs, epoch: int) {
    && o.IsHeartbeat()
    && epoch - OBS_LAG - WINDOW_ROUNDS + 1 <= o.Epoch() <= epoch - OBS_LAG
    && cfg.IsGenesisMaster(cfg.addressOf(o.observer))
  }

  // Map.set under the observer, for a newer heartbeat only: a known observer keeps its place.
  function PutLatest(latest: seq<Obs>, o: Obs): (r: seq<Obs>) {
    var k := PlaceOf(ObserverKey(), latest, o.observer);
    if k == |latest| then latest + [o]
    else if o.timestamp > latest[k].timestamp then latest[k := o]
    else latest
  }

  // One entry per observer; on a timestamp tie the one that arrived first stays.
  function LatestHeartbeats(cfg: Config, pool: seq<Obs>, epoch: int): seq<Obs> {
    if pool == [] then []
    else
      var n := |pool| - 1;
      var before := LatestHeartbeats(cfg, pool[..n], epoch);
      if Counts(cfg, pool[n], epoch) then PutLatest(before, pool[n]) else before
  }

  ghost predicate OneEach(s: seq<Obs>) {
    forall i, j :: 0 <= i < j < |s| ==> s[i].observer != s[j].observer
  }

  // o is the newest of its observer's counted heartbeats.
  ghost predicate IsLatest(cfg: Config, pool: seq<Obs>, epoch: int, o: Obs) {
    && o in pool && Counts(cfg, o, epoch)
    && forall p :: p in pool && Counts(cfg, p, epoch) && p.observer == o.observer ==> p.timestamp <= o.timestamp
  }

  // Each master's newest heartbeat is a single one: no tie at the top.
  ghost predicate NoTies(cfg: Config, pool: seq<Obs>, epoch: int) {
    forall o, p :: IsLatest(cfg, pool, epoch, o) && IsLatest(cfg, pool, epoch, p) && o.observer == p.observer ==> o == p
  }

  // The same heartbeats count, whatever order they arrived in.
  ghost predicate SameCounted(cfg: Config, pool: seq<Obs>, other: seq<Obs>, epoch: int) {
    forall o :: Counts(cfg, o, epoch) ==> (o in pool <==> o in other)
  }

  ghost predicate SameLatest(cfg: Config, pool: seq<Obs>, other: seq<Obs>, epoch: int) {
    forall o :: o in LatestHeartbeats(cfg, pool, epoch) <==> o in LatestHeartbeats(cfg, other, epoch)
  }

  ghost predicate HasObserver(latest: seq<Obs>, observer: string) {
    exists x :: x in latest && x.observer == observer
  }

  lemma PutLatestEffect(latest: seq<Obs>, o: Obs)
    requires OneEach(latest)
    ensures var r := PutLatest(latest, o);
            && OneEach(r)
            && HasObserver(r, o.observer)
            && (forall x :: x in r ==> x in latest || x == o)
            && (forall x :: x in latest && x.observer != o.observer ==> x in r)
            && (forall x :: x in r && x.observer == o.observer ==> x.timestamp >= o.timestamp)
            && (forall x, y :: x in r && y in latest && x.observer == y.observer ==> x.timestamp >= y.timestamp)
  {
    var k := PlaceOf(ObserverKey(), latest, o.observer);
    var r := PutLatest(latest, o);
    assert r[k].observer == o.observer && r[k] in r;
    forall x | x in latest && x.observer != o.observer ensures x in r {
      var i :| 0 <= i < |latest| && latest[i] == x;
      assert r[i] == x;
    }
    forall x, y | x in r && y in latest && x.observer == y.observer ensures x.timestamp >= y.timestamp {
      SamePlace(latest, o, x, y);
    }
    forall x | x in r && x.observer == o.observer ensures x.timestamp >= o.timestamp {
      var i :| 0 <= i < |r| && r[i] == x;
      OnlyOne(r, x, r[k]);
    }
  }

  lemma OnlyOne(s: seq<Obs>, x: Obs, y: Obs)
    requires OneEach(s)
    requires x in s && y in s && x.observer == y.observer
    ensures x == y
  {
    var i :| 0 <= i < |s| && s[i] == x;
    var j :| 0 <= j < |s| && s[j] == y;
  }

  lemma SamePlace(latest: seq<Obs>, o: Obs, x: Obs, y: Obs)
    requires OneEach(latest)
    requires x in PutLatest(latest, o) && y in latest && x.observer == y.observer
    ensures x.timestamp >= y.timestamp
  {
    var r := PutLatest(latest, o);
    var i :| 0 <= i < |r| && r[i] == x;
    var j :| 0 <= j < |latest| && latest[j] == y;
  }

  lemma {:induction false} LatestAreLatest(cfg: Config, pool: seq<Obs>, epoch: int)
    ensures var latest := LatestHeartbeats(cfg, pool, epoch);
            && OneEach(latest)
            && (forall x :: x in latest ==> IsLatest(cfg, pool, epoch, x))
            && (forall p :: p in pool && Counts(cfg, p, epoch) ==> HasObserver(latest, p.observer))
  {
    if pool != [] {
      var n := |pool| - 1;
      var o := pool[n];
      var before := LatestHeartbeats(cfg, pool[..n], epoch);
      var latest := LatestHeartbeats(cfg, pool, epoch);
      LatestAreLatest(cfg, pool[..n], epoch);
      assert forall p :: p in pool <==> p in pool[..n] || p == o;
      if Counts(cfg, o, epoch) {
        PutLatestEffect(before, o);
        forall p | p in pool && Counts(cfg, p, epoch) ensures HasObserver(latest, p.observer) {
          if p.observer != o.observer {
            var y :| y in before && y.observer == p.observer;
            assert y in latest;
          }
        }
        forall x | x in latest ensures IsLatest(cfg, pool, epoch, x) {
          StillLatest(cfg, pool, epoch, x);
        }
      }
    }
  }

  lemma LatestTakes(cfg: Config, pool: seq<Obs>, epoch: int)
    requires pool != [] && Counts(cfg, pool[|pool| - 1], epoch)
    ensures LatestHeartbeats(cfg, pool, epoch)
              == PutLatest(LatestHeartbeats(cfg, pool[..|pool| - 1], epoch), pool[|pool| - 1])
  { }

  lemma StillLatest(cfg: Config, pool: seq<Obs>, epoch: int, x: Obs)
    requires pool != [] && Counts(cfg, pool[|pool| - 1], epoch)
    requires var before := LatestHeartbeats(cfg, pool[..|pool| - 1], epoch);
             && OneEach(before)
             && (forall y :: y in before ==> IsLatest(cfg, pool[..|pool| - 1], epoch, y))
             && (forall p :: p in pool[..|pool| - 1] && Counts(cfg, p, epoch) ==> HasObserver(before, p.observer))
    requires x in LatestHeartbeats(cfg, pool, epoch)
    ensures IsLatest(cfg, pool, epoch, x)
  {
    hide Counts, LatestHeartbeats, PutLatest;
    var n := |pool| - 1;
    var o := pool[n];
    var before := LatestHeartbeats(cfg, pool[..n], epoch);
    assert LatestHeartbeats(cfg, pool, epoch) == PutLatest(before, o) by { LatestTakes(cfg, pool, epoch); }
    PutLatestEffect(before, o);
    assert x in before ==> IsLatest(cfg, pool[..n], epoch, x);
    assert forall p :: p in pool <==> p in pool[..n] || p == o;
    forall p | p in pool && Counts(cfg, p, epoch) && p.observer == x.observer ensures p.timestamp <= x.timestamp {
      if p in pool[..n] {
        var y :| y in before && y.observer == p.observer;
        assert IsLatest(cfg, pool[..n], epoch, y);
      }
    }
  }

  // With no ties, the latest heartbeats are determined by the set of pooled observations:
  // their arrival order cannot matter.
  lemma LatestIsCanonical(cfg: Config, pool: seq<Obs>, other: seq<Obs>, epoch: int)
    requires NoTies(cfg, pool, epoch) && SameCounted(cfg, pool, other, epoch)
    ensures SameLatest(cfg, pool, other, epoch)
  {
    SameAreLatest(cfg, pool, other, epoch);
    LatestSubset(cfg, pool, other, epoch);
    LatestSubset(cfg, other, pool, epoch);
  }

  lemma SameAreLatest(cfg: Config, pool: seq<Obs>, other: seq<Obs>, epoch: int)
    requires SameCounted(cfg, pool, other, epoch)
    ensures forall o :: IsLatest(cfg, pool, epoch, o) <==> IsLatest(cfg, other, epoch, o)
  { }

  lemma LatestSubset(cfg: Config, pool: seq<Obs>, other: seq<Obs>, epoch: int)
    requires NoTies(cfg, pool, epoch) && SameCounted(cfg, pool, other, epoch)
    ensures forall o :: o in LatestHeartbeats(cfg, pool, epoch) ==> o in LatestHeartbeats(cfg, other, epoch)
  {
    hide LatestHeartbeats, Counts;
    LatestAreLatest(cfg, pool, epoch);
    LatestAreLatest(cfg, other, epoch);
    SameAreLatest(cfg, pool, other, epoch);
    forall o | o in LatestHeartbeats(cfg, pool, epoch) ensures o in LatestHeartbeats(cfg, other, epoch) {
      assert IsLatest(cfg, pool, epoch, o);
      assert o in other && Counts(cfg, o, epoch);
      var x :| x in LatestHeartbeats(cfg, other, epoch) && x.observer == o.observer;
      assert IsLatest(cfg, other, epoch, x);
    }
  }

  // A heartbeat that nothing later beats stays, if it arrived first.
  lemma {:induction false} FirstStays(cfg: Config, o: Obs, pool: seq<Obs>, epoch: int)
    requires Counts(cfg, o, epoch)
    requires forall p :: p in pool && Counts(cfg, p, epoch) && p.observer == o.observer ==> p.timestamp <= o.timestamp
    ensures o in LatestHeartbeats(cfg, [o] + pool, epoch)
  {
    hide Counts;
    var s := [o] + pool;
    var n := |s| - 1;
    if pool == [] {
      assert s[..n] == [] && LatestHeartbeats(cfg, [], epoch) == [];
      assert LatestHeartbeats(cfg, s, epoch) == [o];
    } else {
      var rest := pool[..|pool| - 1];
      assert s[..n] == [o] + rest && s[n] == pool[|pool| - 1];
      FirstStays(cfg, o, rest, epoch);
      LatestAreLatest(cfg, s[..n], epoch);
      if Counts(cfg, s[n], epoch) { PutKeeps(LatestHeartbeats(cfg, s[..n], epoch), s[n], o); }
    }
  }

  lemma PutKeeps(latest: seq<Obs>, p: Obs, o: Obs)
    requires OneEach(latest) && o in latest && (p.observer == o.observer ==> p.timestamp <= o.timestamp)
    ensures o in PutLatest(latest, p)
  {
    var i :| 0 <= i < |latest| && latest[i] == o;
    assert PutLatest(latest, p)[i] == o;
  }

  // The same pool, had o arrived first.
  function ToFront(o: Obs, pool: seq<Obs>): (r: seq<Obs>)
    ensures forall x :: x in r <==> x in pool || x == o
  {
    [o] + Filter((x: Obs) => x != o, pool)
  }

  lemma ToFrontIsDistinct(o: Obs, pool: seq<Obs>)
    requires Distinct(ObsKey(), pool) && o in pool
    ensures Distinct(ObsKey(), ToFront(o, pool))
  {
    var rest := Filter((x: Obs) => x != o, pool);
    FilterIsDistinct(ObsKey(), (x: Obs) => x != o, pool);
    forall k | 0 <= k < |rest| ensures rest[k].id != o.id {
      assert rest[k] in pool && rest[k] != o;
      var i, j :| 0 <= i < |pool| && 0 <= j < |pool| && pool[i] == rest[k] && pool[j] == o;
      assert ObsKey()(pool[i]) != ObsKey()(pool[j]);
    }
  }

  // With a tie it does: whichever of the two newest heartbeats arrived first speaks for the
  // master, in any pool whatsoever.
  lemma TieBreaksByArrival(cfg: Config, pool: seq<Obs>, epoch: int, o: Obs, p: Obs)
    requires IsLatest(cfg, pool, epoch, o) && IsLatest(cfg, pool, epoch, p) && o.observer == p.observer && o != p
    ensures o in LatestHeartbeats(cfg, ToFront(o, pool), epoch) && o !in LatestHeartbeats(cfg, ToFront(p, pool), epoch)
  {
    hide LatestHeartbeats, Counts;
    FirstStays(cfg, o, Filter((x: Obs) => x != o, pool), epoch);
    FirstStays(cfg, p, Filter((x: Obs) => x != p, pool), epoch);
    var latest := LatestHeartbeats(cfg, ToFront(p, pool), epoch);
    LatestAreLatest(cfg, ToFront(p, pool), epoch);
    if o in latest { OnlyOne(latest, o, p); }
  }

  // A pool of the same counted heartbeats, each once.
  ghost predicate Rearranges(cfg: Config, pool: seq<Obs>, other: seq<Obs>, epoch: int) {
    Distinct(ObsKey(), other) && SameCounted(cfg, pool, other, epoch)
  }

  // So arrival order cannot matter exactly if no master's newest heartbeat is tied. A tie
  // below a newer heartbeat is harmless.
  lemma ArrivalIsHarmlessIff(cfg: Config, pool: seq<Obs>, epoch: int)
    requires Distinct(ObsKey(), pool)
    ensures NoTies(cfg, pool, epoch)
       <==> forall a, b :: Rearranges(cfg, pool, a, epoch) && Rearranges(cfg, pool, b, epoch) ==>
              SameLatest(cfg, a, b, epoch)
  {
    hide LatestHeartbeats, Counts;
    if NoTies(cfg, pool, epoch) {
      forall a, b | Rearranges(cfg, pool, a, epoch) && Rearranges(cfg, pool, b, epoch)
        ensures SameLatest(cfg, a, b, epoch)
      {
        LatestIsCanonical(cfg, pool, a, epoch);
        LatestIsCanonical(cfg, pool, b, epoch);
      }
    } else {
      var o, p :| IsLatest(cfg, pool, epoch, o) && IsLatest(cfg, pool, epoch, p) && o.observer == p.observer && o != p;
      TieBreaksByArrival(cfg, pool, epoch, o, p);
      ToFrontIsDistinct(o, pool);
      ToFrontIsDistinct(p, pool);
      assert Rearranges(cfg, pool, ToFront(o, pool), epoch) && Rearranges(cfg, pool, ToFront(p, pool), epoch);
      assert !SameLatest(cfg, ToFront(o, pool), ToFront(p, pool), epoch);
    }
  }
}
