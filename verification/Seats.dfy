// Anchor seats (applyAnchorTx in State.ts): claiming, moving, listing, vesting.
module Seats {
  import opened Events
  import opened Order

  datatype Status = Unclaimed | Owned | Listed

  // vestTotal == 0 stands for "no schedule", as in `!seat.vestTotalUZIR`.
  datatype Seat = Seat(
    codeHash: string, owner: Option<Address>, status: Status,
    price: Option<int>, listedAt: Option<int>, claimedAt: Option<int>,
    reserve: nat, zti: real,
    vestTotal: int, vested: int, vestStart: Option<int>, vestDuration: Option<int>,
    vestBeneficiary: Option<Address>, vestFunder: Option<Address>,
    contributionsOpen: bool)

  type SeatMap = map<string, Seat>

  predicate IsHex64(s: string) {
    |s| == 64 && forall i :: 0 <= i < |s| ==> '0' <= s[i] <= '9' || 'a' <= s[i] <= 'f' || 'A' <= s[i] <= 'F'
  }

  function Lower(s: string): string {
    seq(|s|, i requires 0 <= i < |s| => if 'A' <= s[i] <= 'Z' then s[i] + 32 as char else s[i])
  }

  function PositiveOnly(d: Option<int>): Option<int> {
    if d.Some? && d.value > 0 then d else None
  }

  function MoveTo(s: Seat, to: Address): Seat {
    s.(owner := Some(to), status := Owned, price := None, listedAt := None)
  }

  function OwnedBy(seats: SeatMap, id: string, a: Address): bool {
    id in seats && seats[id].owner == Some(a)
  }

  // One position of a batch: open a schedule for the full allocation, or carry the running one.
  function MovePosition(s: Seat, from: Address, to: Address, startAt: int, duration: Option<int>): Seat {
    var m := MoveTo(s, to);
    if s.vestTotal == 0 then
      m.(vestTotal := s.reserve, vestStart := Some(startAt), vestDuration := duration,
         vestBeneficiary := Some(to), vestFunder := Some(from), vested := 0)
    else
      m.(vestBeneficiary := Some(to))
  }

  function MoveAll(seats: SeatMap, ids: seq<string>, from: Address, to: Address, startAt: int,
                   duration: Option<int>): (r: SeatMap)
    requires forall i :: 0 <= i < |ids| ==> ids[i] in seats
    ensures r.Keys == seats.Keys
  {
    if ids == [] then seats
    else
      var rest := MoveAll(seats, ids[..|ids| - 1], from, to, startAt, duration);
      var id := ids[|ids| - 1];
      rest[id := MovePosition(rest[id], from, to, startAt, duration)]
  }

  function OpenAll(seats: SeatMap, ids: seq<string>, owner: Address, open: bool): (r: SeatMap)
    ensures r.Keys == seats.Keys
  {
    if ids == [] then seats
    else
      var rest := OpenAll(seats, ids[..|ids| - 1], owner, open);
      var id := ids[|ids| - 1];
      if OwnedBy(rest, id, owner) then rest[id := rest[id].(contributionsOpen := open)] else rest
  }

  // The seats after a well-formed, affordable anchor transaction, or None when it is refused
  // (no fee is taken and the sender's nonce is not consumed).
  function SeatEffect(cfg: Config, founders: set<Address>, seats: SeatMap, tx: Tx, op: AnchorOp,
                      p: AnchorPayload): (r: Option<SeatMap>) {
    match (op, p)
    case (Claim, ClaimSeat(id, code)) =>
      if id !in seats || seats[id].owner.Some? || cfg.hash(code) != seats[id].codeHash then None
      else Some(seats[id := MoveTo(seats[id], tx.from).(claimedAt := Some(tx.timestamp))])
    case (Transfer, TransferSeat(id, to)) =>
      if !OwnedBy(seats, id, tx.from) || !IsZir(to) then None
      else Some(seats[id := MoveTo(seats[id], to)])
    case (PositionTransfer, TransferPositions(seatIds, to, startAt, duration)) =>
      if seatIds == [] || !IsZir(to) then None
      else
        var ids := Dedup(seatIds);
        if exists i :: 0 <= i < |ids| && !OwnedBy(seats, ids[i], tx.from) then None
        else
          var start := if startAt.Some? then startAt.value else tx.timestamp;
          Some(MoveAll(seats, ids, tx.from, to, start, PositiveOnly(duration)))
    case (List, ListSeat(id, price)) =>
      if !OwnedBy(seats, id, tx.from) || price.None? || price.value <= 0 then None
      else Some(seats[id := seats[id].(status := Listed, price := price, listedAt := Some(tx.timestamp))])
    case (Delist, DelistSeat(id)) =>
      if !OwnedBy(seats, id, tx.from) then None
      else Some(seats[id := seats[id].(status := Owned, price := None, listedAt := None)])
    case (SetContributions, OpenContributions(ids, open)) =>
      if |ids| == 0 || |ids| > 64 || !(exists i :: 0 <= i < |ids| && OwnedBy(seats, ids[i], tx.from)) then None
      else Some(OpenAll(seats, ids, tx.from, open))
    case (CodeEdit, EditCode(id, codeHash)) =>
      if id !in seats || seats[id].owner.Some? || tx.from !in founders || !IsHex64(codeHash) then None
      else Some(seats[id := seats[id].(codeHash := Lower(codeHash))])
    case (VestStart, StartVesting(id, beneficiary, total, startAt, duration)) =>
      if !OwnedBy(seats, id, tx.from) || seats[id].vestTotal != 0 || !IsZir(beneficiary) then None
      else if total.None? || total.value <= 0 || startAt.None? then None
      else Some(seats[id := seats[id].(vestTotal := total.value, vestStart := startAt,
                                       vestBeneficiary := Some(beneficiary), vestFunder := Some(tx.from),
                                       vestDuration := PositiveOnly(duration), vested := 0)])
    case (VestRelease, ReleaseVesting(id, released)) =>
      if id !in seats || seats[id].vestFunder != Some(tx.from) || seats[id].vestTotal == 0 then None
      else if released.None? || released.value < 0 then None
      else
        var capped := if released.value <= seats[id].vestTotal then released.value else seats[id].vestTotal;
        if capped <= seats[id].vested then Some(seats)
        else Some(seats[id := seats[id].(vested := capped)])
    case _ => None
  }

  // ---- what holds of every seat in every run ----

  // Listed exactly when a positive price is set (and then someone owns it); the released
  // amount lies within the schedule; a schedule always has a funder.
  ghost predicate GoodSeat(s: Seat) {
    && (s.status == Listed <==> s.price.Some?)
    && (s.price.Some? ==> s.price.value > 0 && s.owner.Some?)
    && 0 <= s.vested <= s.vestTotal
    && (s.vestTotal > 0 ==> s.vestFunder.Some?)
  }

  ghost predicate GoodSeats(seats: SeatMap) {
    forall id :: id in seats ==> GoodSeat(seats[id])
  }

  // ---- genesis ----

  // One anchor of the genesis document, with the allocation and standing of its class.
  datatype GenesisAnchor = GenesisAnchor(seatId: string, codeHash: string, allocation: nat, classZti: real)

  // new Map(anchorOwnership): the last entry for a seat counts; an empty owner is none.
  function GenesisOwner(owners: seq<(string, Address)>, id: string): Option<Address> {
    if owners == [] then None
    else
      var last := owners[|owners| - 1];
      if last.0 != id then GenesisOwner(owners[..|owners| - 1], id)
      else if last.1 == "" then None else Some(last.1)
  }

  function GenesisSeat(c: GenesisAnchor, owner: Option<Address>, timestamp: int): Seat {
    Seat(c.codeHash, owner, if owner.Some? then Owned else Unclaimed, None, None,
         if owner.Some? then Some(timestamp) else None,
         c.allocation, c.classZti, 0, 0, None, None, None, None, false)
  }

  function GenesisSeats(anchors: seq<GenesisAnchor>, owners: seq<(string, Address)>, timestamp: int): SeatMap {
    if anchors == [] then map[]
    else
      var c := anchors[|anchors| - 1];
      GenesisSeats(anchors[..|anchors| - 1], owners,
                   timestamp)[c.seatId := GenesisSeat(c, GenesisOwner(owners, c.seatId), timestamp)]
  }

  // A network starts with good seats, exactly the listed ones, nothing of them listed for
  // sale or vesting.
  lemma {:induction false} GenesisSeatsAreGood(anchors: seq<GenesisAnchor>, owners: seq<(string, Address)>,
                                               timestamp: int)
    ensures var seats := GenesisSeats(anchors, owners, timestamp);
            && GoodSeats(seats)
            && (forall id :: id in seats <==> exists c :: c in anchors && c.seatId == id)
            && (forall id :: id in seats ==>
                  && seats[id].owner == GenesisOwner(owners, id) && seats[id].price.None?
                  && seats[id].vestTotal == seats[id].vested == 0)
  {
    if anchors != [] {
      var n := |anchors| - 1;
      GenesisSeatsAreGood(anchors[..n], owners, timestamp);
      assert forall c :: c in anchors <==> c in anchors[..n] || c == anchors[n];
    }
  }

  method LoadGenesisAnchors(anchors: seq<GenesisAnchor>, owners: seq<(string, Address)>,
                            timestamp: int) returns (seats: SeatMap)
    ensures seats == GenesisSeats(anchors, owners, timestamp)
  {
    seats := map[];
    for i := 0 to |anchors|
      invariant seats == GenesisSeats(anchors[..i], owners, timestamp)
    {
      assert anchors[..i + 1][..i] == anchors[..i];
      var c := anchors[i];
      seats := seats[c.seatId := GenesisSeat(c, GenesisOwner(owners, c.seatId), timestamp)];
    }
    assert anchors[..|anchors|] == anchors;
  }

  // How one seat may change over any stretch of a run.
  ghost predicate SeatEvolves(s: Seat, t: Seat) {
    && (s.owner.Some? ==> t.owner.Some?)
    && (s.vestTotal > 0 ==> t.vestTotal == s.vestTotal && t.vestFunder == s.vestFunder)
    && s.vested <= t.vested
    && t.reserve == s.reserve && t.zti == s.zti
  }

  ghost predicate Evolves(seats: SeatMap, later: SeatMap) {
    seats.Keys == later.Keys && forall id :: id in seats ==> SeatEvolves(seats[id], later[id])
  }

  lemma EvolvesIsTransitive(a: SeatMap, b: SeatMap, c: SeatMap)
    requires Evolves(a, b) && Evolves(b, c)
    ensures Evolves(a, c)
  {
    forall id | id in a ensures SeatEvolves(a[id], c[id]) {
      assert SeatEvolves(a[id], b[id]) && SeatEvolves(b[id], c[id]);
    }
  }

  lemma {:induction false} MoveAllAt(seats: SeatMap, ids: seq<string>, from: Address, to: Address, startAt: int,
                                     duration: Option<int>, id: string)
    requires forall i :: 0 <= i < |ids| ==> ids[i] in seats
    requires forall i, j :: 0 <= i < j < |ids| ==> ids[i] != ids[j]
    requires id in seats
    ensures MoveAll(seats, ids, from, to, startAt, duration)[id]
         == if id in ids then MovePosition(seats[id], from, to, startAt, duration) else seats[id]
  {
    if ids != [] {
      var n := |ids| - 1;
      MoveAllAt(seats, ids[..n], from, to, startAt, duration, id);
      assert id in ids <==> id in ids[..n] || id == ids[n];
    }
  }

  lemma {:induction false} OpenAllAt(seats: SeatMap, ids: seq<string>, owner: Address, open: bool, id: string)
    requires id in seats
    ensures var s := OpenAll(seats, ids, owner, open)[id];
            s == if id in ids && seats[id].owner == Some(owner) then seats[id].(contributionsOpen := open)
              else seats[id]
  {
    if ids != [] {
      var n := |ids| - 1;
      OpenAllAt(seats, ids[..n], owner, open, id);
      assert id in ids <==> id in ids[..n] || id == ids[n];
    }
  }

  // Who is allowed to change a seat's owner.
  ghost predicate MayReassign(cfg: Config, s: Seat, t: Seat, tx: Tx, p: AnchorPayload) {
    || s.owner == Some(tx.from)
    || (s.owner.None? && t.owner == Some(tx.from) && p.ClaimSeat? && cfg.hash(p.code) == s.codeHash)
  }

  // One seat before and after an accepted anchor transaction.
  ghost predicate SoundChange(cfg: Config, s: Seat, t: Seat, tx: Tx, p: AnchorPayload) {
    && GoodSeat(t) && SeatEvolves(s, t)
    && (t.owner != s.owner ==> MayReassign(cfg, s, t, tx, p))
  }

  lemma BatchChangeIsSound(cfg: Config, founders: set<Address>, seats: SeatMap, tx: Tx, p: AnchorPayload, id: string)
    requires id in seats && GoodSeat(seats[id])
    requires SeatEffect(cfg, founders, seats, tx, PositionTransfer, p).Some?
    ensures var after := SeatEffect(cfg, founders, seats, tx, PositionTransfer, p).value;
            id in after && SoundChange(cfg, seats[id], after[id], tx, p)
  {
    var ids := Dedup(p.seatIds);
    MoveAllAt(seats, ids, tx.from, p.to,
              if p.vestStartAt.Some? then p.vestStartAt.value else tx.timestamp, PositiveOnly(p.vestDuration), id);
    if id in ids {
      var i :| 0 <= i < |ids| && ids[i] == id;
      assert OwnedBy(seats, ids[i], tx.from);
    }
  }

  lemma SingleChangeIsSound(cfg: Config, founders: set<Address>, seats: SeatMap, tx: Tx, op: AnchorOp, p: AnchorPayload,
                            id: string)
    requires id in seats && GoodSeat(seats[id])
    requires op != PositionTransfer && op != SetContributions
    requires SeatEffect(cfg, founders, seats, tx, op, p).Some?
    ensures var after := SeatEffect(cfg, founders, seats, tx, op, p).value;
            after.Keys == seats.Keys && SoundChange(cfg, seats[id], after[id], tx, p)
  {
    hide MoveAll, OpenAll, Dedup;
    var after := SeatEffect(cfg, founders, seats, tx, op, p).value;
    assert after.Keys == seats.Keys;
  }

  lemma SeatChangeIsSound(cfg: Config, founders: set<Address>, seats: SeatMap, tx: Tx, op: AnchorOp, p: AnchorPayload,
                          id: string)
    requires id in seats && GoodSeat(seats[id])
    requires SeatEffect(cfg, founders, seats, tx, op, p).Some?
    ensures var after := SeatEffect(cfg, founders, seats, tx, op, p).value;
            id in after && SoundChange(cfg, seats[id], after[id], tx, p)
  {
    if op.PositionTransfer? {
      BatchChangeIsSound(cfg, founders, seats, tx, p, id);
    } else if op.SetContributions? {
      OpenAllAt(seats, p.seatIds, tx.from, p.open, id);
    } else {
      SingleChangeIsSound(cfg, founders, seats, tx, op, p, id);
    }
  }

  lemma SeatEffectKeepsKeys(cfg: Config, founders: set<Address>, seats: SeatMap, tx: Tx, op: AnchorOp, p: AnchorPayload)
    requires SeatEffect(cfg, founders, seats, tx, op, p).Some?
    ensures SeatEffect(cfg, founders, seats, tx, op, p).value.Keys == seats.Keys
  { }

  // Every accepted anchor transaction keeps the seat invariant, lets seats evolve only as
  // SeatEvolves allows, and changes an owner only for that owner or for a matching code.
  lemma SeatEffectIsSound(cfg: Config, founders: set<Address>, seats: SeatMap, tx: Tx, op: AnchorOp, p: AnchorPayload)
    requires GoodSeats(seats)
    requires SeatEffect(cfg, founders, seats, tx, op, p).Some?
    ensures var after := SeatEffect(cfg, founders, seats, tx, op, p).value;
            && GoodSeats(after) && Evolves(seats, after)
            && (forall id :: id in seats && after[id].owner != seats[id].owner ==>
                MayReassign(cfg, seats[id], after[id], tx, p))
  {
    hide SeatEffect;
    var after := SeatEffect(cfg, founders, seats, tx, op, p).value;
    SeatEffectKeepsKeys(cfg, founders, seats, tx, op, p);
    forall id | id in seats ensures SoundChange(cfg, seats[id], after[id], tx, p) {
      SeatChangeIsSound(cfg, founders, seats, tx, op, p, id);
    }
  }

  // The only ways a seat may change at all: by its owner's transaction; by a claim with the
  // matching code while it is free; its code by a founder while it is free; the released
  // amount by whoever funds its vesting.
  ghost predicate ChangedByRight(cfg: Config, founders: set<Address>, s: Seat, t: Seat, tx: Tx, p: AnchorPayload) {
    || s.owner == Some(tx.from)
    || (s.owner.None? && p.ClaimSeat? && cfg.hash(p.code) == s.codeHash &&
        t == MoveTo(s, tx.from).(claimedAt := Some(tx.timestamp)))
    || (s.owner.None? && tx.from in founders && t == s.(codeHash := t.codeHash))
    || (s.vestFunder == Some(tx.from) && t == s.(vested := t.vested))
  }

  lemma SeatChangesAreByRight(cfg: Config, founders: set<Address>, seats: SeatMap, tx: Tx, op: AnchorOp,
                              p: AnchorPayload, id: string)
    requires id in seats && SeatEffect(cfg, founders, seats, tx, op, p).Some?
    ensures var after := SeatEffect(cfg, founders, seats, tx, op, p).value;
            id in after && (after[id] != seats[id] ==> ChangedByRight(cfg, founders, seats[id], after[id], tx, p))
  {
    hide MoveAll, OpenAll, Dedup;
    SeatEffectKeepsKeys(cfg, founders, seats, tx, op, p);
    if op.PositionTransfer? {
      BatchAcceptedIff(cfg, founders, seats, tx, p);
      BatchMovesAt(cfg, founders, seats, tx, p, id);
      if id in p.seatIds { assert OwnedBy(seats, id, tx.from); }
    } else if op.SetContributions? {
      OpenAllAt(seats, p.seatIds, tx.from, p.open, id);
    }
  }

  lemma BatchAcceptedIff(cfg: Config, founders: set<Address>, seats: SeatMap, tx: Tx, p: AnchorPayload)
    requires p.TransferPositions?
    ensures SeatEffect(cfg, founders, seats, tx, PositionTransfer, p).Some?
       <==> p.seatIds != [] && IsZir(p.to) && forall id :: id in p.seatIds ==> OwnedBy(seats, id, tx.from)
  {
    hide MoveAll, Dedup;
    var ids := Dedup(p.seatIds);
    if forall id :: id in p.seatIds ==> OwnedBy(seats, id, tx.from) {
      assert forall i :: 0 <= i < |ids| ==> ids[i] in p.seatIds;
    }
    if forall i :: 0 <= i < |ids| ==> OwnedBy(seats, ids[i], tx.from) {
      forall id | id in p.seatIds ensures OwnedBy(seats, id, tx.from) {
        var i :| 0 <= i < |ids| && ids[i] == id;
      }
    }
  }

  lemma BatchMovesAt(cfg: Config, founders: set<Address>, seats: SeatMap, tx: Tx, p: AnchorPayload, id: string)
    requires p.TransferPositions? && id in seats
    requires SeatEffect(cfg, founders, seats, tx, PositionTransfer, p).Some?
    ensures var after := SeatEffect(cfg, founders, seats, tx, PositionTransfer, p).value;
            && id in after
            && (if id in p.seatIds then after[id].owner == Some(p.to) && after[id].vestBeneficiary == Some(p.to) &&
                after[id].price.None?
                else after[id] == seats[id])
  {
    hide MoveAll, Dedup;
    MoveAllAt(seats, Dedup(p.seatIds), tx.from, p.to,
              if p.vestStartAt.Some? then p.vestStartAt.value else tx.timestamp, PositiveOnly(p.vestDuration), id);
  }

  // A position batch moves all of its seats, and only them, or none at all.
  lemma PositionBatchIsAtomic(cfg: Config, founders: set<Address>, seats: SeatMap, tx: Tx, p: AnchorPayload)
    requires p.TransferPositions?
    ensures var r := SeatEffect(cfg, founders, seats, tx, PositionTransfer, p);
            && (r.Some? <==>
                p.seatIds != [] && IsZir(p.to) && forall id :: id in p.seatIds ==> OwnedBy(seats, id, tx.from))
            && (r.Some? ==> r.value.Keys == seats.Keys && forall id :: id in seats ==>
                  if id in p.seatIds then r.value[id].owner == Some(p.to) &&
                    r.value[id].vestBeneficiary == Some(p.to) && r.value[id].price.None?
                  else r.value[id] == seats[id])
  {
    hide SeatEffect;
    var r := SeatEffect(cfg, founders, seats, tx, PositionTransfer, p);
    BatchAcceptedIff(cfg, founders, seats, tx, p);
    if r.Some? {
      SeatEffectKeepsKeys(cfg, founders, seats, tx, PositionTransfer, p);
      forall id | id in seats
        ensures if id in p.seatIds then r.value[id].owner == Some(p.to) && r.value[id].vestBeneficiary == Some(p.to) &&
                  r.value[id].price.None?
                else r.value[id] == seats[id]
      {
        BatchMovesAt(cfg, founders, seats, tx, p, id);
      }
    }
  }
}
