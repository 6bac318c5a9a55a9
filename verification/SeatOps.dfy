// Each anchor operation on its own: exactly when it is accepted, and exactly what it makes of
// the seats (the branches of applyAnchorTx in State.ts).
module SeatOps {
  import opened Events
  import opened Order
  import opened Seats

  predicate Owns(seats: SeatMap, id: string, a: Address) { id in seats && seats[id].owner == Some(a) }

  // One seat becomes t, and nothing else changes.
  ghost predicate OnlySeat(seats: SeatMap, after: SeatMap, id: string, t: Seat) {
    && id in seats && after.Keys == seats.Keys && after[id] == t
    && (forall other :: other in seats && other != id ==> after[other] == seats[other])
  }

  // A seat in new hands, or none: not for sale any more.
  ghost predicate InHandsOf(s: Seat, t: Seat, a: Address) {
    t.owner == Some(a) && t.status == Owned && t.price.None? && t.listedAt.None?
    && t == s.(owner := t.owner, status := t.status, price := t.price, listedAt := t.listedAt, claimedAt := t.claimedAt)
  }

  // A free seat goes to whoever has the code, and remembers when.
  lemma ClaimIsExact(cfg: Config, founders: set<Address>, seats: SeatMap, tx: Tx, id: string, code: string)
    ensures var r := SeatEffect(cfg, founders, seats, tx, Claim, ClaimSeat(id, code));
            && (r.Some? <==> id in seats && seats[id].owner.None? && cfg.hash(code) == seats[id].codeHash)
            && (r.Some? ==> exists t :: OnlySeat(seats, r.value, id, t) && InHandsOf(seats[id], t, tx.from)
                                        && t.claimedAt == Some(tx.timestamp))
  {
    var r := SeatEffect(cfg, founders, seats, tx, Claim, ClaimSeat(id, code));
    if r.Some? { assert OnlySeat(seats, r.value, id, r.value[id]); }
  }

  // A seat goes from its owner to the one it names.
  lemma TransferIsExact(cfg: Config, founders: set<Address>, seats: SeatMap, tx: Tx, id: string, to: Address)
    ensures var r := SeatEffect(cfg, founders, seats, tx, AnchorOp.Transfer, TransferSeat(id, to));
            && (r.Some? <==> Owns(seats, id, tx.from) && "zir1" <= to)
            && (r.Some? ==> exists t :: OnlySeat(seats, r.value, id, t) && InHandsOf(seats[id], t, to)
                                        && t.claimedAt == seats[id].claimedAt)
  {
    var r := SeatEffect(cfg, founders, seats, tx, AnchorOp.Transfer, TransferSeat(id, to));
    if r.Some? { assert OnlySeat(seats, r.value, id, r.value[id]); }
  }

  ghost predicate PutUp(s: Seat, t: Seat, price: Option<int>, time: int) {
    t.status == Listed && t.price == price && t.listedAt == Some(time)
    && t == s.(status := t.status, price := t.price, listedAt := t.listedAt)
  }

  // An owned seat is put up at the named price, or taken down again.
  lemma ListIsExact(cfg: Config, founders: set<Address>, seats: SeatMap, tx: Tx, id: string, price: Option<int>)
    ensures var r := SeatEffect(cfg, founders, seats, tx, List, ListSeat(id, price));
            && (r.Some? <==> Owns(seats, id, tx.from) && price.Some? && price.value > 0)
            && (r.Some? ==> exists t :: OnlySeat(seats, r.value, id, t) && PutUp(seats[id], t, price, tx.timestamp))
  {
    var r := SeatEffect(cfg, founders, seats, tx, List, ListSeat(id, price));
    if r.Some? { assert OnlySeat(seats, r.value, id, r.value[id]); }
  }

  lemma DelistIsExact(cfg: Config, founders: set<Address>, seats: SeatMap, tx: Tx, id: string)
    ensures var r := SeatEffect(cfg, founders, seats, tx, Delist, DelistSeat(id));
            && (r.Some? <==> Owns(seats, id, tx.from))
            && (r.Some? ==> exists t :: OnlySeat(seats, r.value, id, t) && InHandsOf(seats[id], t, tx.from)
                                        && t.claimedAt == seats[id].claimedAt)
  {
    var r := SeatEffect(cfg, founders, seats, tx, Delist, DelistSeat(id));
    if r.Some? { assert OnlySeat(seats, r.value, id, r.value[id]); }
  }

  // Listing and then delisting gives back the seat as it was owned; and a sale by transfer
  // leaves no price behind.
  lemma DelistUndoesList(cfg: Config, founders: set<Address>, seats: SeatMap, tx: Tx, later: Tx, id: string,
                         price: Option<int>)
    requires GoodSeats(seats) && tx.from == later.from && id in seats && seats[id].price.None? &&
               seats[id].listedAt.None?
    requires seats[id].status != Unclaimed
    requires SeatEffect(cfg, founders, seats, tx, List, ListSeat(id, price)).Some?
    ensures var listed := SeatEffect(cfg, founders, seats, tx, List, ListSeat(id, price)).value;
            SeatEffect(cfg, founders, listed, later, Delist, DelistSeat(id)) == Some(seats)
  {
    var listed := SeatEffect(cfg, founders, seats, tx, List, ListSeat(id, price)).value;
    assert GoodSeat(seats[id]);
    assert listed[id := listed[id].(status := Owned, price := None, listedAt := None)] == seats;
  }

  // Hexadecimal letters read the same in either case.
  ghost predicate SameHex(s: string, t: string) {
    |s| == |t| && forall i :: 0 <= i < |s| ==>
      if 'A' <= s[i] <= 'F' then t[i] as int == s[i] as int + 32 else t[i] == s[i]
  }

  ghost predicate Recoded(s: Seat, t: Seat, code: string) {
    SameHex(code, t.codeHash) && t == s.(codeHash := t.codeHash)
  }

  // A founder replaces the code of a free seat by 64 hexadecimal digits, in lower case.
  lemma CodeEditIsExact(cfg: Config, founders: set<Address>, seats: SeatMap, tx: Tx, id: string, code: string)
    ensures var r := SeatEffect(cfg, founders, seats, tx, CodeEdit, EditCode(id, code));
            && (r.Some? <==> id in seats && seats[id].owner.None? && tx.from in founders && IsHex64(code))
            && (r.Some? ==> exists t :: OnlySeat(seats, r.value, id, t) && Recoded(seats[id], t, code))
  {
    var r := SeatEffect(cfg, founders, seats, tx, CodeEdit, EditCode(id, code));
    if r.Some? { assert OnlySeat(seats, r.value, id, r.value[id]) && SameHex(code, r.value[id].codeHash); }
  }

  // Up to 64 seats at a time: the flag is set on exactly those of them the sender owns.
  lemma ContributionsAreExact(cfg: Config, founders: set<Address>, seats: SeatMap, tx: Tx, ids: seq<string>, open: bool)
    ensures var r := SeatEffect(cfg, founders, seats, tx, SetContributions, OpenContributions(ids, open));
            && (r.Some? <==> 0 < |ids| <= 64 && exists id :: id in ids && Owns(seats, id, tx.from))
            && (r.Some? ==> r.value.Keys == seats.Keys && forall id :: id in seats ==>
                  && r.value[id] == seats[id].(contributionsOpen := r.value[id].contributionsOpen)
                  && r.value[id].contributionsOpen
                     == if id in ids && Owns(seats, id, tx.from) then open else seats[id].contributionsOpen)
  {
    hide OpenAll;
    var r := SeatEffect(cfg, founders, seats, tx, SetContributions, OpenContributions(ids, open));
    if id :| id in ids && Owns(seats, id, tx.from) {
      var i :| 0 <= i < |ids| && ids[i] == id;
      assert OwnedBy(seats, ids[i], tx.from);
    }
    if i :| 0 <= i < |ids| && OwnedBy(seats, ids[i], tx.from) { assert ids[i] in ids; }
    if r.Some? {
      forall id | id in seats
        ensures r.value[id] == if id in ids && Owns(seats, id, tx.from) then seats[id].(contributionsOpen := open)
                               else seats[id]
      {
        OpenAllAt(seats, ids, tx.from, open, id);
      }
    }
  }

  // An owner opens a schedule on a seat that has none.
  lemma VestStartIsExact(cfg: Config, founders: set<Address>, seats: SeatMap, tx: Tx, id: string, beneficiary: Address,
                         total: Option<int>, startAt: Option<int>, duration: Option<int>)
    ensures var r := SeatEffect(cfg, founders, seats, tx, VestStart,
                                StartVesting(id, beneficiary, total, startAt, duration));
            && (r.Some? <==> Owns(seats, id, tx.from) && seats[id].vestTotal == 0 && "zir1" <= beneficiary
                             && total.Some? && total.value > 0 && startAt.Some?)
            && (r.Some? ==> exists t :: OnlySeat(seats, r.value, id, t) && SameButVesting(seats[id], t)
                                        && Opened(t, tx.from, beneficiary, total, startAt, duration))
  {
    var r := SeatEffect(cfg, founders, seats, tx, VestStart, StartVesting(id, beneficiary, total, startAt, duration));
    if r.Some? { assert OnlySeat(seats, r.value, id, r.value[id]); }
  }

  ghost predicate SameButVesting(s: Seat, t: Seat) {
    t == s.(vestTotal := t.vestTotal, vested := t.vested, vestStart := t.vestStart, vestDuration := t.vestDuration,
            vestBeneficiary := t.vestBeneficiary, vestFunder := t.vestFunder)
  }

  ghost predicate Opened(t: Seat, funder: Address, beneficiary: Address, total: Option<int>, startAt: Option<int>,
                         duration: Option<int>) {
    && Some(t.vestTotal) == total && t.vested == 0 && t.vestStart == startAt
    && t.vestDuration == (if duration.Some? && duration.value > 0 then duration else None)
    && t.vestBeneficiary == Some(beneficiary) && t.vestFunder == Some(funder)
  }

  // The released amount of t is the larger of that of s and the smaller of v and the total.
  ghost predicate Risen(s: Seat, t: Seat, v: int) {
    && t == s.(vested := t.vested) && t.vested >= s.vested
    && (t.vested == s.vested || t.vested == v || t.vested == s.vestTotal)
    && (t.vested >= v || t.vested >= s.vestTotal)
    && (t.vested > s.vested ==> t.vested <= v && t.vested <= s.vestTotal)
  }

  // The funder reports what is released: the amount rises to that, up to the total, and never
  // falls.
  lemma VestReleaseIsExact(cfg: Config, founders: set<Address>, seats: SeatMap, tx: Tx, id: string,
                           released: Option<int>)
    ensures var r := SeatEffect(cfg, founders, seats, tx, VestRelease, ReleaseVesting(id, released));
            && (r.Some? <==> id in seats && seats[id].vestFunder == Some(tx.from) && seats[id].vestTotal != 0
                             && released.Some? && released.value >= 0)
            && (r.Some? ==> exists t :: OnlySeat(seats, r.value, id, t) && Risen(seats[id], t, released.value))
  {
    var r := SeatEffect(cfg, founders, seats, tx, VestRelease, ReleaseVesting(id, released));
    if r.Some? { assert OnlySeat(seats, r.value, id, r.value[id]); }
  }

  // A batch moves every named seat of its sender. One without a schedule gets one for its
  // whole reserve, funded by the sender; one with a schedule keeps it, for the new owner.
  lemma BatchIsExact(cfg: Config, founders: set<Address>, seats: SeatMap, tx: Tx, ids: seq<string>, to: Address,
                     startAt: Option<int>, duration: Option<int>)
    ensures var r := SeatEffect(cfg, founders, seats, tx, PositionTransfer,
                                TransferPositions(ids, to, startAt, duration));
            && (r.Some? <==> ids != [] && "zir1" <= to && forall id :: id in ids ==> Owns(seats, id, tx.from))
            && (r.Some? ==> r.value.Keys == seats.Keys && forall id :: id in seats ==>
                  if id in ids then PositionOf(seats[id], r.value[id], tx, to, startAt, duration)
                    else r.value[id] == seats[id])
  {
    hide SeatEffect, MoveAll, Dedup;
    var p := TransferPositions(ids, to, startAt, duration);
    var r := SeatEffect(cfg, founders, seats, tx, PositionTransfer, p);
    PositionBatchIsAtomic(cfg, founders, seats, tx, p);
    assert forall id :: Owns(seats, id, tx.from) == OwnedBy(seats, id, tx.from);
    if r.Some? {
      forall id | id in seats && id in ids ensures PositionOf(seats[id], r.value[id], tx, to, startAt, duration) {
        PositionMoves(cfg, founders, seats, tx, p, id);
      }
    }
  }

  ghost predicate PositionOf(s: Seat, t: Seat, tx: Tx, to: Address, startAt: Option<int>, duration: Option<int>) {
    && t.owner == Some(to) && t.status == Owned && t.price.None? && t.listedAt.None? && t.vestBeneficiary == Some(to)
    && t.codeHash == s.codeHash && t.claimedAt == s.claimedAt && t.reserve == s.reserve && t.zti == s.zti
    && t.contributionsOpen == s.contributionsOpen
    && (s.vestTotal != 0 ==> t.vestTotal == s.vestTotal && t.vested == s.vested && t.vestStart == s.vestStart
                             && t.vestDuration == s.vestDuration && t.vestFunder == s.vestFunder)
    && (s.vestTotal == 0 ==> t.vestTotal == s.reserve && t.vested == 0 && t.vestFunder == Some(tx.from)
                             && t.vestStart == (if startAt.Some? then startAt else Some(tx.timestamp))
                             && t.vestDuration == (if duration.Some? && duration.value > 0 then duration else None))
  }

  lemma PositionMoves(cfg: Config, founders: set<Address>, seats: SeatMap, tx: Tx, p: AnchorPayload, id: string)
    requires p.TransferPositions? && SeatEffect(cfg, founders, seats, tx, PositionTransfer, p).Some?
    requires id in seats && id in p.seatIds
    ensures id in SeatEffect(cfg, founders, seats, tx, PositionTransfer, p).value
    ensures PositionOf(seats[id], SeatEffect(cfg, founders, seats, tx, PositionTransfer, p).value[id], tx, p.to,
                       p.vestStartAt, p.vestDuration)
  {
    hide MoveAll, Dedup;
    MoveAllAt(seats, Dedup(p.seatIds), tx.from, p.to,
              if p.vestStartAt.Some? then p.vestStartAt.value else tx.timestamp, PositiveOnly(p.vestDuration), id);
  }

  // No other operation, and none with another one's payload, is ever accepted.
  lemma NothingElseIsAccepted(cfg: Config, founders: set<Address>, seats: SeatMap, tx: Tx, op: AnchorOp,
                              p: AnchorPayload)
    requires SeatEffect(cfg, founders, seats, tx, op, p).Some?
    ensures match op
            case Claim => p.ClaimSeat?
            case Transfer => p.TransferSeat?
            case List => p.ListSeat?
            case Delist => p.DelistSeat?
            case CodeEdit => p.EditCode?
            case VestStart => p.StartVesting?
            case VestRelease => p.ReleaseVesting?
            case PositionTransfer => p.TransferPositions?
            case SetContributions => p.OpenContributions?
            case Activate => false
  {
    hide MoveAll, OpenAll, Dedup;
  }

  // ---- genesis ----

  // The entry of a list that counts for a seat: the last one.
  ghost predicate CountsFor(ids: seq<string>, id: string, k: nat) {
    k < |ids| && ids[k] == id && forall j :: k < j < |ids| ==> ids[j] != id
  }

  function AnchorIds(anchors: seq<GenesisAnchor>): (r: seq<string>)
    ensures |r| == |anchors|
  {
    seq(|anchors|, i requires 0 <= i < |anchors| => anchors[i].seatId)
  }

  function OwnerIds(owners: seq<(string, Address)>): (r: seq<string>)
    ensures |r| == |owners|
  {
    seq(|owners|, i requires 0 <= i < |owners| => owners[i].0)
  }

  lemma {:induction false} OwnerIsListed(owners: seq<(string, Address)>, id: string)
    ensures GenesisOwner(owners, id).Some? ==> GenesisOwner(owners, id).value != ""
    ensures forall k: nat :: CountsFor(OwnerIds(owners), id, k) ==>
              GenesisOwner(owners, id) == if owners[k].1 == "" then None else Some(owners[k].1)
    ensures (forall k: nat :: !CountsFor(OwnerIds(owners), id, k)) ==> GenesisOwner(owners, id).None?
  {
    if owners != [] {
      var n := |owners| - 1;
      OwnerIsListed(owners[..n], id);
      assert OwnerIds(owners)[..n] == OwnerIds(owners[..n]) && OwnerIds(owners)[n] == owners[n].0;
      if owners[n].0 == id {
        assert CountsFor(OwnerIds(owners), id, n);
      } else {
        forall k: nat ensures CountsFor(OwnerIds(owners), id, k) <==> CountsFor(OwnerIds(owners[..n]), id, k) {
          assert k < n ==> OwnerIds(owners)[k] == OwnerIds(owners[..n])[k];
          assert forall j :: k < j < n ==> OwnerIds(owners)[j] == OwnerIds(owners[..n])[j];
        }
      }
    }
  }

  // A genesis seat is as the last entry for it says: its code, allocation and standing, and
  // its owner as the last ownership entry says; without one, or with an empty one, it is free.
  lemma {:induction false} GenesisSeatIsListed(anchors: seq<GenesisAnchor>, owners: seq<(string, Address)>, time: int,
                                               id: string, k: nat)
    requires CountsFor(AnchorIds(anchors), id, k)
    ensures var seats := GenesisSeats(anchors, owners, time);
            && id in seats && seats[id].codeHash == anchors[k].codeHash
            && seats[id].reserve == anchors[k].allocation && seats[id].zti == anchors[k].classZti
            && seats[id].status == (if seats[id].owner.Some? then Owned else Unclaimed)
            && seats[id].claimedAt == (if seats[id].owner.Some? then Some(time) else None)
            && (seats[id].owner.Some? <==>
                exists j: nat :: CountsFor(OwnerIds(owners), id, j) && Some(owners[j].1) == seats[id].owner &&
                  owners[j].1 != "")
            && (forall j: nat :: CountsFor(OwnerIds(owners), id, j) && owners[j].1 != "" ==>
                  seats[id].owner == Some(owners[j].1))
  {
    var n := |anchors| - 1;
    assert AnchorIds(anchors)[n] == anchors[n].seatId && AnchorIds(anchors)[..n] == AnchorIds(anchors[..n]);
    if k < n {
      assert CountsFor(AnchorIds(anchors[..n]), id, k);
      assert anchors[n].seatId != id;
      GenesisSeatIsListed(anchors[..n], owners, time, id, k);
    } else {
      OwnerIsListed(owners, id);
    }
  }
}
