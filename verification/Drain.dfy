// Draining the due transactions of an epoch (step 1 of processEpoch in State.ts):
// canonical order, nonce-gap waiting, gap closing and the time-to-live skip.
module Drain {
  import opened Events
  import opened Order
  import opened Ledger

  // The canonical order of a drain: by sender, then nonce, then id.
  predicate TxBefore(a: Tx, b: Tx) {
    if a.from != b.from then Before(a.from, b.from)
    else if a.nonce != b.nonce then a.nonce < b.nonce
    else Before(a.id, b.id)
  }

  function TxOrder(): (Tx, Tx) -> bool { (a: Tx, b: Tx) => TxBefore(a, b) }
  function TxKey(): Tx -> string { (t: Tx) => t.id }

  lemma TxOrderIsStrict()
    ensures Strict(TxOrder())
  {
    forall a: Tx ensures !TxBefore(a, a) { BeforeIsStrict(a.id, a.id); }
    forall a: Tx, b: Tx, c: Tx | TxBefore(a, b) && TxBefore(b, c) ensures TxBefore(a, c) {
      TxBeforeIsTransitive(a, b, c);
    }
  }

  lemma TxBeforeIsTransitive(a: Tx, b: Tx, c: Tx)
    requires TxBefore(a, b) && TxBefore(b, c)
    ensures TxBefore(a, c)
  {
    BeforeIsStrict(a.from, b.from);
    BeforeIsStrict(b.from, a.from);
    if a.from != b.from && b.from != c.from { BeforeIsTransitive(a.from, b.from, c.from); }
    if a.from == b.from == c.from && a.nonce == b.nonce == c.nonce { BeforeIsTransitive(a.id, b.id, c.id); }
  }

  lemma PoolIsComparable(pool: seq<Tx>)
    requires Distinct(TxKey(), pool)
    ensures Comparable(TxOrder(), pool)
  {
    forall i, j | 0 <= i < j < |pool| ensures TxBefore(pool[i], pool[j]) || TxBefore(pool[j], pool[i]) {
      assert TxKey()(pool[i]) != TxKey()(pool[j]);
      BeforeIsStrict(pool[i].from, pool[j].from);
      BeforeIsStrict(pool[i].id, pool[j].id);
    }
  }

  // ---- one transaction ----

  datatype Outcome = Outcome(ledger: Ledger, kept: bool, applied: bool)

  // Superseded: this nonce has been committed already.
  predicate Stale(l: Ledger, tx: Tx) { tx.nonce < l.Nonce(tx.from) }

  // A tx (or gap) is expired once it is older than the gap time-to-live.
  predicate Expired(cfg: Config, tx: Tx, epoch: int) { tx.Epoch() < epoch - cfg.gapTtl }

  function CloseGap(l: Ledger, tx: Tx): Ledger {
    if tx.nonce > l.Nonce(tx.from) then l.SetNonce(tx.from, tx.nonce) else l
  }

  function DrainOne(cfg: Config, l: Ledger, tx: Tx, epoch: int): Outcome {
    if Stale(l, tx) then Outcome(l, false, false)
    else if tx.nonce > l.Nonce(tx.from) && !Expired(cfg, tx, epoch) then Outcome(l, true, false)
    else
      var r := CloseGap(l, tx);
      var m := ApplyTx(cfg, r, tx, epoch);
      if m.Nonce(tx.from) > r.Nonce(tx.from) then Outcome(m, false, true)
      else if Expired(cfg, tx, epoch) then Outcome(m.Spend(tx.from), false, false)
      else Outcome(m, true, false)
  }

  // ---- the whole drain ----

  // kept: still pooled afterwards. applied: took effect, in order.
  datatype Drained = Drained(ledger: Ledger, kept: seq<Tx>, applied: seq<Tx>)

  function DrainAll(cfg: Config, l: Ledger, txs: seq<Tx>, epoch: int): Drained {
    if txs == [] then Drained(l, [], [])
    else
      var n := |txs| - 1;
      var d := DrainAll(cfg, l, txs[..n], epoch);
      var o := DrainOne(cfg, d.ledger, txs[n], epoch);
      Drained(o.ledger,
              if o.kept then d.kept + [txs[n]] else d.kept,
              if o.applied then d.applied + [txs[n]] else d.applied)
  }

  ghost predicate NoncesGrow(l: Ledger, m: Ledger) {
    forall a :: l.Nonce(a) <= m.Nonce(a)
  }

  lemma NoncesGrowTransitively(a: Ledger, b: Ledger, c: Ledger)
    requires NoncesGrow(a, b) && NoncesGrow(b, c)
    ensures NoncesGrow(a, c)
  {
    forall x ensures a.Nonce(x) <= c.Nonce(x) { assert a.Nonce(x) <= b.Nonce(x); }
  }

  lemma DrainOneEffect(cfg: Config, l: Ledger, tx: Tx, epoch: int)
    ensures var o := DrainOne(cfg, l, tx, epoch);
            && NoncesGrow(l, o.ledger)
            && (o.kept ==> o.ledger == l && !o.applied && tx.nonce >= l.Nonce(tx.from) && !Expired(cfg, tx, epoch))
            && (!o.kept ==> tx.nonce < o.ledger.Nonce(tx.from))
            && (o.applied ==> l.Nonce(tx.from) <= tx.nonce && o.ledger.Nonce(tx.from) == tx.nonce + 1)
            && (o.applied ==> o.ledger == ApplyTx(cfg, CloseGap(l, tx), tx, epoch))
  {
    var r := CloseGap(l, tx);
    ApplyTxSpendsOneNonce(cfg, r, tx, epoch);
    if !Stale(l, tx) && !(tx.nonce > l.Nonce(tx.from) && !Expired(cfg, tx, epoch)) {
      var m := ApplyTx(cfg, r, tx, epoch);
      assert r.Nonce(tx.from) == tx.nonce;
      assert NoncesGrow(l, r);
      assert NoncesGrow(r, m);
      NoncesGrowTransitively(l, r, m);
      assert NoncesGrow(m, m.Spend(tx.from));
      NoncesGrowTransitively(l, m, m.Spend(tx.from));
    }
  }

  // A drain never wedges: whatever it keeps is young. It never loses a live transaction:
  // whatever it removes has had its nonce committed. Committed nonces never fall.
  lemma {:induction false} DrainNeverWedges(cfg: Config, l: Ledger, txs: seq<Tx>, epoch: int)
    ensures var d := DrainAll(cfg, l, txs, epoch);
            && NoncesGrow(l, d.ledger)
            && (forall t :: t in d.kept ==> t in txs && !Expired(cfg, t, epoch))
            && (forall t :: t in d.applied ==> t in txs)
            && (forall t :: t in txs && t !in d.kept ==> Stale(d.ledger, t))
  {
    hide ApplyTx, CloseGap, Expired, DrainOne;
    if txs != [] {
      var n := |txs| - 1;
      var p := DrainAll(cfg, l, txs[..n], epoch);
      var d := DrainAll(cfg, l, txs, epoch);
      DrainNeverWedges(cfg, l, txs[..n], epoch);
      DrainOneEffect(cfg, p.ledger, txs[n], epoch);
      NoncesGrowTransitively(l, p.ledger, d.ledger);
      forall t | t in txs && t !in d.kept ensures Stale(d.ledger, t) {
        assert t in txs[..n] || t == txs[n];
        if t in txs[..n] && t !in p.kept {
          assert Stale(p.ledger, t);
          assert p.ledger.Nonce(t.from) <= d.ledger.Nonce(t.from);
        }
      }
    }
  }

  // ---- duplicates do not matter ----

  function Live(l: Ledger): Tx -> bool { (t: Tx) => !Stale(l, t) }

  // Superseded transactions (for instance re-pooled after the dedup cache forgot them)
  // change nothing: a drain with them equals the drain without them.
  lemma {:induction false} DrainIgnoresStale(cfg: Config, l: Ledger, txs: seq<Tx>, epoch: int)
    ensures DrainAll(cfg, l, txs, epoch) == DrainAll(cfg, l, Filter(Live(l), txs), epoch)
  {
    hide DrainOne;
    if txs != [] {
      var n := |txs| - 1;
      var p := DrainAll(cfg, l, txs[..n], epoch);
      DrainIgnoresStale(cfg, l, txs[..n], epoch);
      DrainNeverWedges(cfg, l, txs[..n], epoch);
      var f := Filter(Live(l), txs[..n]);
      if Stale(l, txs[n]) {
        assert l.Nonce(txs[n].from) <= p.ledger.Nonce(txs[n].from);
        StaleIsDropped(cfg, p.ledger, txs[n], epoch);
        assert Filter(Live(l), txs) == f;
      } else {
        assert Filter(Live(l), txs) == f + [txs[n]];
        assert (f + [txs[n]])[..|f|] == f;
      }
    }
  }

  // ---- closing a gap ----

  // A gap is closed at txs[n]: the sender's nonce jumps up to this transaction's.
  predicate ClosesGap(cfg: Config, l: Ledger, txs: seq<Tx>, n: nat, epoch: int)
    requires n < |txs|
  {
    var before := DrainAll(cfg, l, txs[..n], epoch).ledger;
    txs[n].nonce > before.Nonce(txs[n].from) && Expired(cfg, txs[n], epoch)
  }

  // The jump at some n passes over t: t is still live when it happens, and dead afterwards.
  ghost predicate PassesOver(cfg: Config, l: Ledger, txs: seq<Tx>, epoch: int, t: Tx, n: nat) {
    && n < |txs| && ClosesGap(cfg, l, txs, n, epoch)
    && txs[n].from == t.from && t.nonce < txs[n].nonce
    && !Stale(DrainAll(cfg, l, txs[..n], epoch).ledger, t)
  }

  ghost predicate PassedOver(cfg: Config, l: Ledger, txs: seq<Tx>, epoch: int, t: Tx) {
    exists n: nat :: PassesOver(cfg, l, txs, epoch, t, n)
  }

  predicate SameSlot(u: Tx, t: Tx) { u.from == t.from && u.nonce == t.nonce }

  // Nothing due takes the slot of t: whatever is due for it stays pooled.
  ghost predicate SlotKept(cfg: Config, l: Ledger, txs: seq<Tx>, epoch: int, t: Tx) {
    forall u :: u in txs && SameSlot(u, t) ==> u in DrainAll(cfg, l, txs, epoch).kept
  }

  // A due transaction of that sender further on has outlived the time-to-live.
  ghost predicate OldSuccessor(cfg: Config, txs: seq<Tx>, epoch: int, t: Tx) {
    exists u :: u in txs && u.from == t.from && t.nonce < u.nonce && Expired(cfg, u, epoch)
  }

  lemma DrainOneFrame(cfg: Config, l: Ledger, tx: Tx, epoch: int)
    ensures var m := DrainOne(cfg, l, tx, epoch).ledger;
            && (forall b :: b != tx.from ==> m.Nonce(b) == l.Nonce(b))
            && (m.Nonce(tx.from) == l.Nonce(tx.from) || m.Nonce(tx.from) == tx.nonce + 1)
  {
    var r := CloseGap(l, tx);
    ApplyTxSpendsOneNonce(cfg, r, tx, epoch);
    if !Stale(l, tx) && !(tx.nonce > l.Nonce(tx.from) && !Expired(cfg, tx, epoch)) {
      assert r.Nonce(tx.from) == tx.nonce && forall b :: b != tx.from ==> r.Nonce(b) == l.Nonce(b);
    }
  }

  lemma OrderedBySlot(txs: seq<Tx>, i: nat, j: nat)
    requires Ascending(TxOrder(), txs) && i < |txs| && j < |txs|
    requires txs[i].from == txs[j].from && txs[i].nonce < txs[j].nonce
    ensures i < j
  {
    assert !TxOrder()(txs[j], txs[i]);
  }

  lemma EarlierDiffer(txs: seq<Tx>, n: nat)
    requires Ascending(TxOrder(), txs) && n < |txs|
    ensures Ascending(TxOrder(), txs[..n]) && txs[n] !in txs[..n]
  {
    TxOrderIsStrict();
  }

  lemma KeptBefore(cfg: Config, l: Ledger, txs: seq<Tx>, epoch: int, u: Tx)
    requires Ascending(TxOrder(), txs) && txs != [] && u in txs[..|txs| - 1]
    requires u in DrainAll(cfg, l, txs, epoch).kept
    ensures u in DrainAll(cfg, l, txs[..|txs| - 1], epoch).kept
  {
    EarlierDiffer(txs, |txs| - 1);
  }

  lemma {:induction false} KeptAfter(cfg: Config, l: Ledger, txs: seq<Tx>, epoch: int, n: nat, u: Tx)
    requires n <= |txs| && u in DrainAll(cfg, l, txs[..n], epoch).kept
    ensures u in DrainAll(cfg, l, txs, epoch).kept
    decreases |txs|
  {
    if n < |txs| {
      assert txs[..|txs| - 1][..n] == txs[..n];
      KeptAfter(cfg, l, txs[..|txs| - 1], epoch, n, u);
    } else {
      assert txs[..n] == txs;
    }
  }

  lemma KeptIsGap(cfg: Config, l: Ledger, txs: seq<Tx>, epoch: int)
    requires Ascending(TxOrder(), txs) && txs != []
    requires txs[|txs| - 1] in DrainAll(cfg, l, txs, epoch).kept
    ensures DrainAll(cfg, l, txs, epoch).ledger == DrainAll(cfg, l, txs[..|txs| - 1], epoch).ledger
  {
    hide DrainOne;
    var n := |txs| - 1;
    var p := DrainAll(cfg, l, txs[..n], epoch);
    EarlierDiffer(txs, n);
    DrainNeverWedges(cfg, l, txs[..n], epoch);
    DrainOneEffect(cfg, p.ledger, txs[n], epoch);
    assert txs[n] !in p.kept;
  }

  // As long as nothing takes the slot of t and no old successor comes up, t stays live.
  lemma {:induction false} SlotStaysFree(cfg: Config, l: Ledger, txs: seq<Tx>, epoch: int, t: Tx)
    requires Ascending(TxOrder(), txs) && !Stale(l, t)
    requires SlotKept(cfg, l, txs, epoch, t) && !OldSuccessor(cfg, txs, epoch, t)
    ensures !Stale(DrainAll(cfg, l, txs, epoch).ledger, t)
  {
    hide DrainOne, Expired;
    if txs != [] {
      var n := |txs| - 1;
      var u := txs[n];
      var p := DrainAll(cfg, l, txs[..n], epoch);
      EarlierDiffer(txs, n);
      forall v | v in txs[..n] && SameSlot(v, t) ensures v in p.kept { KeptBefore(cfg, l, txs, epoch, v); }
      assert !OldSuccessor(cfg, txs[..n], epoch, t);
      SlotStaysFree(cfg, l, txs[..n], epoch, t);
      DrainOneFrame(cfg, p.ledger, u, epoch);
      if SameSlot(u, t) {
        KeptIsGap(cfg, l, txs, epoch);
      } else if u.from == t.from && u.nonce > t.nonce {
        assert u in txs && !Expired(cfg, u, epoch);
        assert DrainOne(cfg, p.ledger, u, epoch) == Outcome(p.ledger, true, false) by {
          YoungGapWaits(cfg, p.ledger, u, epoch);
        }
      }
    }
  }

  lemma YoungGapWaits(cfg: Config, l: Ledger, tx: Tx, epoch: int)
    requires tx.nonce > l.Nonce(tx.from) && !Expired(cfg, tx, epoch)
    ensures DrainOne(cfg, l, tx, epoch) == Outcome(l, true, false)
  { }

  // The first old successor in a drain.
  lemma {:induction false} FirstOldSuccessor(cfg: Config, txs: seq<Tx>, epoch: int, t: Tx) returns (n: nat)
    requires OldSuccessor(cfg, txs, epoch, t)
    ensures n < |txs| && txs[n].from == t.from && t.nonce < txs[n].nonce && Expired(cfg, txs[n], epoch)
    ensures !OldSuccessor(cfg, txs[..n], epoch, t)
  {
    hide Expired;
    var k := |txs| - 1;
    assert txs == txs[..k] + [txs[k]];
    if OldSuccessor(cfg, txs[..k], epoch, t) {
      n := FirstOldSuccessor(cfg, txs[..k], epoch, t);
      assert txs[..k][..n] == txs[..n];
    } else {
      n := k;
    }
  }

  lemma SlotKeptBefore(cfg: Config, l: Ledger, txs: seq<Tx>, epoch: int, t: Tx, n: nat)
    requires Ascending(TxOrder(), txs) && n <= |txs| && SlotKept(cfg, l, txs, epoch, t)
    ensures SlotKept(cfg, l, txs[..n], epoch, t)
    decreases |txs|
  {
    hide DrainOne;
    var k := |txs| - 1;
    if n <= k {
      EarlierDiffer(txs, k);
      forall v | v in txs[..k] && SameSlot(v, t) ensures v in DrainAll(cfg, l, txs[..k], epoch).kept {
        KeptBefore(cfg, l, txs, epoch, v);
      }
      SlotKeptBefore(cfg, l, txs[..k], epoch, t, n);
      assert txs[..k][..n] == txs[..n];
    } else {
      assert txs[..n] == txs;
    }
  }

  lemma {:induction false} LedgerLater(cfg: Config, l: Ledger, txs: seq<Tx>, epoch: int, n: nat)
    requires n <= |txs|
    ensures NoncesGrow(DrainAll(cfg, l, txs[..n], epoch).ledger, DrainAll(cfg, l, txs, epoch).ledger)
    decreases |txs|
  {
    hide DrainOne;
    if n < |txs| {
      var k := |txs| - 1;
      assert txs[..k][..n] == txs[..n];
      LedgerLater(cfg, l, txs[..k], epoch, n);
      DrainOneEffect(cfg, DrainAll(cfg, l, txs[..k], epoch).ledger, txs[k], epoch);
      NoncesGrowTransitively(DrainAll(cfg, l, txs[..n], epoch).ledger, DrainAll(cfg, l, txs[..k], epoch).ledger,
                             DrainAll(cfg, l, txs, epoch).ledger);
    } else {
      assert txs[..n] == txs;
    }
  }

  // Closing a gap passes over a transaction, due or not, exactly if it is live, nothing due
  // takes its slot, and a due successor of its sender has outlived the time-to-live.
  lemma PassedOverIff(cfg: Config, l: Ledger, txs: seq<Tx>, epoch: int, t: Tx)
    requires Ascending(TxOrder(), txs)
    ensures PassedOver(cfg, l, txs, epoch, t)
       <==> !Stale(l, t) && SlotKept(cfg, l, txs, epoch, t) && OldSuccessor(cfg, txs, epoch, t)
  {
    hide DrainOne, DrainAll;
    if PassedOver(cfg, l, txs, epoch, t) {
      var n: nat :| PassesOver(cfg, l, txs, epoch, t, n);
      LivedBefore(cfg, l, txs, epoch, t, n);
    }
    if !Stale(l, t) && SlotKept(cfg, l, txs, epoch, t) && OldSuccessor(cfg, txs, epoch, t) {
      var n := FirstOldSuccessor(cfg, txs, epoch, t);
      SlotKeptBefore(cfg, l, txs, epoch, t, n);
      EarlierAscend(txs, n);
      SlotStaysFree(cfg, l, txs[..n], epoch, t);
      assert PassesOver(cfg, l, txs, epoch, t, n);
    }
  }

  lemma EarlierAscend(txs: seq<Tx>, n: nat)
    requires Ascending(TxOrder(), txs) && n <= |txs|
    ensures Ascending(TxOrder(), txs[..n])
  { }

  lemma LivedBefore(cfg: Config, l: Ledger, txs: seq<Tx>, epoch: int, t: Tx, n: nat)
    requires Ascending(TxOrder(), txs) && PassesOver(cfg, l, txs, epoch, t, n)
    ensures !Stale(l, t) && SlotKept(cfg, l, txs, epoch, t) && OldSuccessor(cfg, txs, epoch, t)
  {
    hide DrainOne, DrainAll;
    var p := DrainAll(cfg, l, txs[..n], epoch);
    DrainNeverWedges(cfg, l, txs[..n], epoch);
    assert l.Nonce(t.from) <= p.ledger.Nonce(t.from);
    forall u | u in txs && SameSlot(u, t) ensures u in DrainAll(cfg, l, txs, epoch).kept {
      var i :| 0 <= i < |txs| && txs[i] == u;
      OrderedBySlot(txs, i, n);
      assert txs[..n][i] == u;
      KeptAfter(cfg, l, txs, epoch, n, u);
    }
    assert txs[n] in txs;
  }

  // And it is lost: it is dead from then on, although, if it was due, it stays pooled.
  lemma PassedOverIsDead(cfg: Config, l: Ledger, txs: seq<Tx>, epoch: int, t: Tx)
    requires Ascending(TxOrder(), txs) && !Stale(l, t) && SlotKept(cfg, l, txs, epoch, t)
    ensures PassedOver(cfg, l, txs, epoch, t) <==> Stale(DrainAll(cfg, l, txs, epoch).ledger, t)
  {
    hide DrainOne, DrainAll;
    PassedOverIff(cfg, l, txs, epoch, t);
    if OldSuccessor(cfg, txs, epoch, t) {
      var u :| u in txs && u.from == t.from && t.nonce < u.nonce && Expired(cfg, u, epoch);
      DrainNeverWedges(cfg, l, txs, epoch);
      assert u !in DrainAll(cfg, l, txs, epoch).kept;
    } else {
      SlotStaysFree(cfg, l, txs, epoch, t);
    }
  }

  // ---- the gap that is closed first ----

  // No due transaction of the sender can move its nonce: each is superseded or a young gap.
  lemma {:induction false} GapStays(cfg: Config, l: Ledger, txs: seq<Tx>, epoch: int, a: Address)
    requires forall u :: u in txs && u.from == a && !Stale(l, u) ==> u.nonce > l.Nonce(a) && !Expired(cfg, u, epoch)
    ensures DrainAll(cfg, l, txs, epoch).ledger.Nonce(a) == l.Nonce(a)
    ensures forall u :: u in txs && u.from == a && !Stale(l, u) ==> u in DrainAll(cfg, l, txs, epoch).kept
  {
    hide DrainOne, Expired;
    if txs != [] {
      var n := |txs| - 1;
      var u := txs[n];
      var p := DrainAll(cfg, l, txs[..n], epoch);
      assert txs == txs[..n] + [u];
      GapStays(cfg, l, txs[..n], epoch, a);
      DrainOneFrame(cfg, p.ledger, u, epoch);
      if u.from == a {
        if Stale(l, u) {
          StaleIsDropped(cfg, p.ledger, u, epoch);
        } else {
          YoungGapWaits(cfg, p.ledger, u, epoch);
        }
      }
    }
  }

  lemma StaleIsDropped(cfg: Config, l: Ledger, tx: Tx, epoch: int)
    requires Stale(l, tx)
    ensures DrainOne(cfg, l, tx, epoch) == Outcome(l, false, false)
  { }

  // t waits behind a gap: it is live, no live due transaction of its sender has a lower
  // nonce, and none has the committed nonce.
  ghost predicate WaitsFirst(l: Ledger, txs: seq<Tx>, t: Tx) {
    && l.Nonce(t.from) < t.nonce
    && (forall u :: u in txs && u.from == t.from && !Stale(l, u) ==> t.nonce <= u.nonce)
  }

  // The program takes the transaction at which it closes a gap for the sender's lowest. For
  // the lowest, that is so exactly if it is itself old or nothing behind it is.
  lemma LowestIsPassedOverIff(cfg: Config, l: Ledger, txs: seq<Tx>, epoch: int, t: Tx)
    requires Ascending(TxOrder(), txs) && WaitsFirst(l, txs, t)
    ensures PassedOver(cfg, l, txs, epoch, t)
       <==> (forall u :: u in txs && SameSlot(u, t) ==> !Expired(cfg, u, epoch)) && OldSuccessor(cfg, txs, epoch, t)
  {
    hide DrainOne, DrainAll, Expired;
    PassedOverIff(cfg, l, txs, epoch, t);
    DrainNeverWedges(cfg, l, txs, epoch);
    if (forall u :: u in txs && SameSlot(u, t) ==> !Expired(cfg, u, epoch)) && OldSuccessor(cfg, txs, epoch, t) {
      var n := FirstOldSuccessor(cfg, txs, epoch, t);
      forall u | u in txs[..n] && u.from == t.from && !Stale(l, u)
        ensures u.nonce > l.Nonce(t.from) && !Expired(cfg, u, epoch)
      {
        assert u in txs;
      }
      GapStays(cfg, l, txs[..n], epoch, t.from);
      forall u | u in txs && SameSlot(u, t) ensures u in DrainAll(cfg, l, txs, epoch).kept {
        var i :| 0 <= i < |txs| && txs[i] == u;
        OrderedBySlot(txs, i, n);
        assert txs[..n][i] == u;
        KeptAfter(cfg, l, txs, epoch, n, u);
      }
    }
  }

  // Whatever the ledger: behind a missing predecessor, a transaction can be passed over
  // exactly if nothing due for its slot is old and a due successor is.
  lemma SomeLedgerPassesOverIff(cfg: Config, txs: seq<Tx>, epoch: int, t: Tx)
    requires Ascending(TxOrder(), txs) && t.nonce > 0
    requires forall u :: u in txs && u.from == t.from ==> u.nonce != t.nonce - 1
    ensures (exists l :: PassedOver(cfg, l, txs, epoch, t))
       <==> (forall u :: u in txs && SameSlot(u, t) ==> !Expired(cfg, u, epoch)) && OldSuccessor(cfg, txs, epoch, t)
  {
    hide DrainOne, DrainAll, Expired;
    var l := Ledger(map[t.from := Account(0, t.nonce - 1)], Supply(0, 0, 0), {}, map[], map[], 0, [], 0);
    assert l.Nonce(t.from) == t.nonce - 1 && WaitsFirst(l, txs, t);
    LowestIsPassedOverIff(cfg, l, txs, epoch, t);
    forall m | PassedOver(cfg, m, txs, epoch, t)
      ensures (forall u :: u in txs && SameSlot(u, t) ==> !Expired(cfg, u, epoch)) && OldSuccessor(cfg, txs, epoch, t)
    {
      PassedOverIff(cfg, m, txs, epoch, t);
      DrainNeverWedges(cfg, m, txs, epoch);
    }
  }

  // Timestamps that do not decrease with the nonce, for each sender.
  ghost predicate TimedByNonce(txs: seq<Tx>) {
    forall i, j :: 0 <= i < |txs| && 0 <= j < |txs| && txs[i].from == txs[j].from && txs[i].nonce < txs[j].nonce
      ==> txs[i].timestamp <= txs[j].timestamp
  }

  // Among transactions timed by nonce, nothing is ever passed over.
  lemma TimedAreNotPassedOver(cfg: Config, l: Ledger, txs: seq<Tx>, epoch: int, t: Tx)
    requires Ascending(TxOrder(), txs) && TimedByNonce(txs) && t in txs
    ensures !PassedOver(cfg, l, txs, epoch, t)
  {
    hide DrainOne, DrainAll;
    PassedOverIff(cfg, l, txs, epoch, t);
    DrainNeverWedges(cfg, l, txs, epoch);
    forall u | u in txs && u.from == t.from && t.nonce < u.nonce
      ensures Expired(cfg, u, epoch) ==> Expired(cfg, t, epoch)
    {
      TimedApart(txs, t, u);
    }
    assert SameSlot(t, t);
  }

  lemma TimedApart(txs: seq<Tx>, t: Tx, u: Tx)
    requires TimedByNonce(txs) && t in txs && u in txs && u.from == t.from && t.nonce < u.nonce
    ensures t.timestamp <= u.timestamp && t.Epoch() <= u.Epoch()
  {
    var i, j :| 0 <= i < |txs| && 0 <= j < |txs| && txs[i] == t && txs[j] == u;
  }

  // Disorder alone does no harm: with a successor that is old and no gap before it, no
  // ledger passes over the younger transaction.
  lemma DisorderAloneIsHarmless(cfg: Config, l: Ledger, epoch: int, young: Tx, old_: Tx)
    requires young.from == old_.from && young.nonce == 0 && old_.nonce == 1 && young.kind.StorageAttest?
    requires !Expired(cfg, young, epoch) && Expired(cfg, old_, epoch)
    ensures !PassedOver(cfg, l, [young, old_], epoch, young)
  {
    hide DrainOne, DrainAll, Expired;
    var txs := [young, old_];
    assert Ascending(TxOrder(), txs);
    PassedOverIff(cfg, l, txs, epoch, young);
    assert txs[..1] == [young] && [young][..0] == [];
    ZeroIsTaken(cfg, l, young, epoch);
    assert DrainAll(cfg, l, [], epoch) == Drained(l, [], []) by { DrainNothing(cfg, l, epoch); }
    DrainLast(cfg, l, [young], epoch);
    DrainLast(cfg, l, txs, epoch);
    assert young != old_;
    assert young in txs && young !in DrainAll(cfg, l, txs, epoch).kept;
  }

  lemma DrainNothing(cfg: Config, l: Ledger, epoch: int)
    ensures DrainAll(cfg, l, [], epoch) == Drained(l, [], [])
  { }

  lemma DrainLast(cfg: Config, l: Ledger, txs: seq<Tx>, epoch: int)
    requires txs != []
    ensures var p := DrainAll(cfg, l, txs[..|txs| - 1], epoch);
            var o := DrainOne(cfg, p.ledger, txs[|txs| - 1], epoch);
            && DrainAll(cfg, l, txs, epoch).ledger == o.ledger
            && DrainAll(cfg, l, txs, epoch).kept == (if o.kept then p.kept + [txs[|txs| - 1]] else p.kept)
  { }

  lemma ZeroIsTaken(cfg: Config, l: Ledger, tx: Tx, epoch: int)
    requires tx.nonce == 0 && tx.kind.StorageAttest?
    ensures !DrainOne(cfg, l, tx, epoch).kept
  { }

  lemma EpochStarts(epoch: int)
    ensures EpochOf(epoch * EPOCH_MS) == epoch
  { }

  // Behind a gap it does: a young transaction is jumped over because a later one is old.
  lemma GapClosingCanSkip(cfg: Config, l: Ledger, a: Address, epoch: int)
    requires l.Nonce(a) == 0
    ensures var memo := Memo(None, None, None, [], false);
            var young := Tx("1", a, "", a, 0, 0, 1, StorageAttest, epoch * EPOCH_MS, memo);
            var old_ := Tx("2", a, "", a, 0, 0, 2, StorageAttest, (epoch - cfg.gapTtl - 1) * EPOCH_MS, memo);
            var d := DrainAll(cfg, l, [young, old_], epoch);
            && Ascending(TxOrder(), [young, old_]) && PassedOver(cfg, l, [young, old_], epoch, young)
            && young in d.kept && Stale(d.ledger, young)
  {
    hide EpochOf, DrainAll, DrainOne;
    var memo := Memo(None, None, None, [], false);
    var young := Tx("1", a, "", a, 0, 0, 1, StorageAttest, epoch * EPOCH_MS, memo);
    var old_ := Tx("2", a, "", a, 0, 0, 2, StorageAttest, (epoch - cfg.gapTtl - 1) * EPOCH_MS, memo);
    var txs := [young, old_];
    EpochStarts(epoch);
    EpochStarts(epoch - cfg.gapTtl - 1);
    assert Ascending(TxOrder(), txs);
    assert old_ in txs && Expired(cfg, old_, epoch) && OldSuccessor(cfg, txs, epoch, young);
    LowestIsPassedOverIff(cfg, l, txs, epoch, young);
    PassedOverIff(cfg, l, txs, epoch, young);
    assert young in txs && SameSlot(young, young);
    PassedOverIsDead(cfg, l, txs, epoch, young);
  }
}
