// The opt-in archive of finalized history (HistoryArchive.ts): overlapping windows of recent
// rows are appended once each, and read back in pages. The file is taken as the rows its
// lines decode to; that lines read back is EventLog's subject.
module HistoryArchive {
  import opened Events
  import opened Order
  import opened Apportion

  datatype Row = Row(timestamp: int, id: string, from: Address, to: Address)

  const MAX_LIMIT: int := 500

  // ---- appending ----

  // What has been archived up to: the newest timestamp and the ids that carry it.
  datatype Archive = Archive(file: seq<Row>, lastTs: int, idsAtLastTs: set<string>)

  function IsFresh(a: Archive): Row -> bool {
    (r: Row) => r.timestamp > a.lastTs || (r.timestamp == a.lastTs && r.id !in a.idsAtLastTs)
  }

  // A stable sort by timestamp.
  function Earlier(rows: seq<Row>): (nat, nat) -> bool {
    (i: nat, j: nat) => i < |rows| && j < |rows| &&
      (rows[i].timestamp < rows[j].timestamp || (rows[i].timestamp == rows[j].timestamp && i < j))
  }

  function Chronological(rows: seq<Row>): (r: seq<Row>)
    ensures |r| == |rows|
  {
    var order := Sort<nat>(Earlier(rows), Indices(|rows|));
    assert forall k :: 0 <= k < |order| ==> order[k] in Indices(|rows|);
    seq(|order|, k requires 0 <= k < |order| => rows[order[k]])
  }

  function Ids(rows: seq<Row>, ts: int): set<string> { set r | r in rows && r.timestamp == ts :: r.id }

  function Appended(a: Archive, rows: seq<Row>): Archive {
    var added := Chronological(Filter(IsFresh(a), rows));
    if added == [] then a
    else
      var newMax := added[|added| - 1].timestamp;
      Archive(a.file + added, if newMax > a.lastTs then newMax else a.lastTs,
              if newMax > a.lastTs then Ids(added, newMax) else a.idsAtLastTs + Ids(added, a.lastTs))
  }

  // ---- what the archive keeps ----

  ghost predicate InOrder(rows: seq<Row>) {
    forall i, j :: 0 <= i < j < |rows| ==> rows[i].timestamp <= rows[j].timestamp
  }

  // No (timestamp, id) twice.
  ghost predicate NoRepeats(rows: seq<Row>) {
    forall i, j :: 0 <= i < j < |rows| ==> rows[i].timestamp != rows[j].timestamp || rows[i].id != rows[j].id
  }

  ghost predicate Good(a: Archive) {
    && InOrder(a.file) && NoRepeats(a.file)
    && a.lastTs == (if a.file == [] then -1 else a.file[|a.file| - 1].timestamp)
    && a.idsAtLastTs == Ids(a.file, a.lastTs)
  }

  ghost predicate Has(file: seq<Row>, r: Row) { exists x :: x in file && x.timestamp == r.timestamp && x.id == r.id }

  lemma ChronologicalIsSorted(rows: seq<Row>)
    ensures var c := Chronological(rows);
            InOrder(c) && (forall r :: r in c <==> r in rows) && (NoRepeats(rows) ==> NoRepeats(c))
  {
    var n := |rows|;
    var less := Earlier(rows);
    var order := Sort<nat>(less, Indices(n));
    var c := Chronological(rows);
    SortAscendsOn(rows);
    assert forall k :: 0 <= k < n ==> order[k] in Indices(n);
    forall i, j | 0 <= i < j < n ensures c[i].timestamp <= c[j].timestamp { assert less(order[i], order[j]); }
    forall r | r in rows ensures r in c {
      var i :| 0 <= i < n && rows[i] == r;
      assert Indices(n)[i] in order;
      var k :| 0 <= k < n && order[k] == i;
      assert c[k] == r;
    }
    if NoRepeats(rows) {
      forall i, j | 0 <= i < j < n ensures c[i].timestamp != c[j].timestamp || c[i].id != c[j].id {
        assert less(order[i], order[j]);
        assert order[i] != order[j];
      }
    }
  }

  lemma SortAscendsOn(rows: seq<Row>)
    ensures Ascending(Earlier(rows), Sort<nat>(Earlier(rows), Indices(|rows|)))
  {
    SortAscends(Earlier(rows), Indices(|rows|));
  }

  lemma {:induction false} FilterNoRepeats(keep: Row -> bool, rows: seq<Row>)
    requires NoRepeats(rows)
    ensures NoRepeats(Filter(keep, rows))
  {
    if rows != [] {
      var n := |rows| - 1;
      var f := Filter(keep, rows[..n]);
      FilterNoRepeats(keep, rows[..n]);
      forall i | 0 <= i < |f| ensures f[i].timestamp != rows[n].timestamp || f[i].id != rows[n].id {
        assert f[i] in rows[..n];
        var k :| 0 <= k < n && rows[k] == f[i];
      }
    }
  }

  lemma FreshIsNew(a: Archive, r: Row)
    requires Good(a) && IsFresh(a)(r)
    ensures !Has(a.file, r) && forall x :: x in a.file ==> x.timestamp <= r.timestamp
  {
    forall x | x in a.file ensures x.timestamp <= r.timestamp && (x.timestamp != r.timestamp || x.id != r.id) {
      var i :| 0 <= i < |a.file| && a.file[i] == x;
      assert i < |a.file| - 1 ==> a.file[i].timestamp <= a.file[|a.file| - 1].timestamp;
    }
  }

  // After any window: still chronological, nothing written twice, the marker exact, and the
  // file only grown.
  lemma AppendKeepsGood(a: Archive, rows: seq<Row>)
    requires Good(a) && NoRepeats(rows)
    ensures Good(Appended(a, rows)) && a.file <= Appended(a, rows).file && a.lastTs <= Appended(a, rows).lastTs
  {
    var kept := Filter(IsFresh(a), rows);
    var added := Chronological(kept);
    FilterNoRepeats(IsFresh(a), rows);
    ChronologicalIsSorted(kept);
    if added != [] {
      forall r | r in added ensures !Has(a.file, r) && forall x :: x in a.file ==> x.timestamp <= r.timestamp {
        FreshIsNew(a, r);
      }
      AppendedFile(a.file, added);
      AppendedMarker(a, added);
    }
  }

  lemma AppendedFile(file: seq<Row>, added: seq<Row>)
    requires InOrder(file) && NoRepeats(file) && InOrder(added) && NoRepeats(added)
    requires forall r :: r in added ==> !Has(file, r) && forall x :: x in file ==> x.timestamp <= r.timestamp
    ensures InOrder(file + added) && NoRepeats(file + added)
  {
    var f := file + added;
    forall i, j | 0 <= i < j < |f|
      ensures f[i].timestamp <= f[j].timestamp && (f[i].timestamp != f[j].timestamp || f[i].id != f[j].id)
    {
      if i < |file| <= j { assert f[i] in file && f[j] in added; }
    }
  }

  lemma AppendedMarker(a: Archive, added: seq<Row>)
    requires Good(a) && added != [] && InOrder(added) && forall r :: r in added ==> IsFresh(a)(r)
    ensures var newMax := added[|added| - 1].timestamp;
            && newMax >= a.lastTs
            && (newMax > a.lastTs ==> Ids(a.file + added, newMax) == Ids(added, newMax))
            && Ids(a.file + added, a.lastTs) == a.idsAtLastTs + Ids(added, a.lastTs)
  {
    var newMax := added[|added| - 1].timestamp;
    assert added[|added| - 1] in added;
    forall x | x in a.file ensures x.timestamp <= a.lastTs {
      var i :| 0 <= i < |a.file| && a.file[i] == x;
      assert i < |a.file| - 1 ==> a.file[i].timestamp <= a.file[|a.file| - 1].timestamp;
    }
    assert forall r :: r in a.file + added <==> r in a.file || r in added;
  }

  // A row of a window ends up archived exactly if it was already, or is at or above the marker.
  lemma ArchivedIff(a: Archive, rows: seq<Row>, r: Row)
    requires Good(a) && r in rows
    ensures r.timestamp >= a.lastTs ==> Has(Appended(a, rows).file, r)
    ensures r.timestamp < a.lastTs ==> (Has(Appended(a, rows).file, r) <==> Has(a.file, r))
  {
    var kept := Filter(IsFresh(a), rows);
    var added := Chronological(kept);
    ChronologicalIsSorted(kept);
    var after := Appended(a, rows).file;
    assert after == a.file + added;
    assert forall x :: x in after <==> x in a.file || x in added;
    if r.timestamp >= a.lastTs {
      if IsFresh(a)(r) {
        assert r in after;
      } else {
        var x :| x in a.file && x.timestamp == a.lastTs && x.id == r.id;
        assert x in after;
      }
    }
  }

  // ---- any sequence of windows ----

  const EMPTY: Archive := Archive([], -1, {})

  function AfterWindows(windows: seq<seq<Row>>): Archive {
    if windows == [] then EMPTY else Appended(AfterWindows(windows[..|windows| - 1]), windows[|windows| - 1])
  }

  lemma {:induction false} ArchiveStaysGood(windows: seq<seq<Row>>)
    requires forall k :: 0 <= k < |windows| ==> NoRepeats(windows[k])
    ensures Good(AfterWindows(windows))
  {
    if windows != [] {
      var n := |windows| - 1;
      ArchiveStaysGood(windows[..n]);
      AppendKeepsGood(AfterWindows(windows[..n]), windows[n]);
    }
  }

  // A row that was at or above the marker when one of its windows came stays archived.
  lemma {:induction false} OnceArchivedStays(windows: seq<seq<Row>>, k: nat, r: Row)
    requires forall j :: 0 <= j < |windows| ==> NoRepeats(windows[j])
    requires k < |windows| && r in windows[k] && r.timestamp >= AfterWindows(windows[..k]).lastTs
    ensures Has(AfterWindows(windows).file, r)
  {
    hide Appended, InOrder, NoRepeats;
    var n := |windows| - 1;
    ArchiveStaysGood(windows[..n]);
    if k == n {
      ArchivedIff(AfterWindows(windows[..n]), windows[n], r);
    } else {
      assert windows[..n][..k] == windows[..k];
      OnceArchivedStays(windows[..n], k, r);
      AppendKeepsGood(AfterWindows(windows[..n]), windows[n]);
      var a, b := AfterWindows(windows[..n]).file, AfterWindows(windows).file;
      var x :| x in a && x.timestamp == r.timestamp && x.id == r.id;
      assert a <= b && x in b;
    }
  }

  // ---- reading ----

  datatype Query = Query(address: string, fromTs: Option<int>, toTs: Option<int>, offset: int, limit: int)

  function Matches(q: Query): Row -> bool {
    (r: Row) =>
      && (q.address == "" || r.from == q.address || r.to == q.address)
      && (q.fromTs.None? || r.timestamp >= q.fromTs.value)
      && (q.toTs.None? || r.timestamp <= q.toTs.value)
  }

  function Offset(q: Query): nat { if q.offset > 0 then q.offset else 0 }
  function Limit(q: Query): nat { if q.limit <= 0 then 0 else if q.limit < MAX_LIMIT then q.limit else MAX_LIMIT }

  function Page(found: seq<Row>, offset: nat, limit: nat): seq<Row> {
    if offset >= |found| then []
    else if offset + limit >= |found| then found[offset..]
    else found[offset..offset + limit]
  }

  class ArchiveFile {
    const on: bool
    var file: seq<Row>
    var lastTs: int
    var idsAtLastTs: set<string>

    ghost function View(): Archive
      reads this
    {
      Archive(file, lastTs, idsAtLastTs)
    }

    constructor (enabled: bool)
      ensures on == enabled && View() == EMPTY
    {
      on := enabled;
      file, lastTs, idsAtLastTs := [], -1, {};
    }

    method Append(rows: seq<Row>)
      modifies this
      ensures View() == if on then Appended(old(View()), rows) else old(View())
    {
      if !on || rows == [] { return; }
      var added: seq<Row> := [];
      for i := 0 to |rows|
        invariant added == Filter(IsFresh(View()), rows[..i]) && View() == old(View())
      {
        assert rows[..i + 1][..i] == rows[..i];
        var r := rows[i];
        if r.timestamp > lastTs || (r.timestamp == lastTs && r.id !in idsAtLastTs) { added := added + [r]; }
      }
      assert rows[..|rows|] == rows;
      added := Chronological(added);
      if added == [] { return; }
      file := file + added;
      var newMax := added[|added| - 1].timestamp;
      if newMax > lastTs {
        lastTs, idsAtLastTs := newMax, Ids(added, newMax);
      } else {
        idsAtLastTs := idsAtLastTs + Ids(added, lastTs);
      }
    }

    method Read(q: Query) returns (rows: seq<Row>, total: nat)
      ensures total == |Filter(Matches(q), file)| && rows == RowsOf(file, q)
    {
      hide Page;
      rows, total := [], 0;
      PageOfNothing(Offset(q), Limit(q));
      for i := 0 to |file|
        invariant var found := Filter(Matches(q), file[..i]);
                  total == |found| && rows == Page(found, Offset(q), Limit(q))
      {
        assert file[..i + 1][..i] == file[..i];
        ghost var found := Filter(Matches(q), file[..i]);
        assert Filter(Matches(q), file[..i + 1]) == if Matches(q)(file[i]) then found + [file[i]] else found;
        if Matches(q)(file[i]) {
          PageGrows(found, file[i], Offset(q), Limit(q));
          var idx := total;
          total := total + 1;
          if idx >= Offset(q) && |rows| < Limit(q) { rows := rows + [file[i]]; }
        }
      }
      assert file[..|file|] == file;
    }
  }

  lemma PageOfNothing(offset: nat, limit: nat)
    ensures Page([], offset, limit) == []
  { }

  lemma PageGrows(found: seq<Row>, r: Row, offset: nat, limit: nat)
    ensures Page(found + [r], offset, limit)
         == if |found| >= offset && |Page(found, offset, limit)| < limit
            then Page(found, offset, limit) + [r]
            else Page(found, offset, limit)
  { }

  // The first k pages of a given size, one after the other.
  function Pages(found: seq<Row>, size: nat, k: nat): seq<Row> {
    if k == 0 then [] else Pages(found, size, k - 1) + Page(found, (k - 1) * size, size)
  }

  lemma {:induction false} PagesArePrefix(found: seq<Row>, size: nat, k: nat)
    requires size > 0
    ensures Pages(found, size, k) == if k * size >= |found| then found else found[..k * size]
  {
    if k > 0 {
      PagesArePrefix(found, size, k - 1);
      NextOffset(k, size);
    }
  }

  lemma NextOffset(k: nat, size: nat)
    requires k > 0
    ensures k * size == (k - 1) * size + size && (k - 1) * size >= 0
  { }

  // ---- paging through reads ----

  // What a read of this query returns.
  function RowsOf(file: seq<Row>, q: Query): seq<Row> { Page(Filter(Matches(q), file), Offset(q), Limit(q)) }

  // The first k reads of the given size, one after the other.
  function ReadOn(file: seq<Row>, q: Query, size: nat, k: nat): seq<Row> {
    if k == 0 then [] else ReadOn(file, q, size, k - 1) + RowsOf(file, q.(offset := (k - 1) * size, limit := size))
  }

  lemma {:induction false} SameMatches(q: Query, r: Query, rows: seq<Row>)
    requires q.address == r.address && q.fromTs == r.fromTs && q.toTs == r.toTs
    ensures Filter(Matches(q), rows) == Filter(Matches(r), rows)
  {
    if rows != [] {
      SameMatches(q, r, rows[..|rows| - 1]);
      assert Matches(q)(rows[|rows| - 1]) == Matches(r)(rows[|rows| - 1]);
    }
  }

  lemma ReadAt(file: seq<Row>, q: Query, size: nat, j: nat)
    requires size > 0
    ensures RowsOf(file, q.(offset := j * size, limit := size))
         == Page(Filter(Matches(q), file), j * size, if size < MAX_LIMIT then size else MAX_LIMIT)
  {
    SameMatches(q, q.(offset := j * size, limit := size), file);
    NextOffset(j + 1, size);
  }

  lemma {:induction false} ReadsWithinLimit(file: seq<Row>, q: Query, size: nat, k: nat)
    requires 0 < size <= MAX_LIMIT
    ensures ReadOn(file, q, size, k) == Pages(Filter(Matches(q), file), size, k)
  {
    hide Filter, Page, RowsOf;
    if k > 0 {
      ReadsWithinLimit(file, q, size, k - 1);
      ReadAt(file, q, size, k - 1);
    }
  }

  function Reach(found: nat, end: nat): nat { if end < found then end else found }

  // Reads of more than the cap skip the rest of each window.
  lemma {:induction false} ReadsFallShort(file: seq<Row>, q: Query, size: nat, k: nat)
    requires size > MAX_LIMIT && k > 0
    ensures var n := |Filter(Matches(q), file)|;
            if n <= MAX_LIMIT then ReadOn(file, q, size, k) == Filter(Matches(q), file)
            else |ReadOn(file, q, size, k)| < Reach(n, k * size)
  {
    var found := Filter(Matches(q), file);
    ReadAt(file, q, size, k - 1);
    NextOffset(k, size);
    if k == 1 {
      assert ReadOn(file, q, size, 0) == [];
    } else {
      ReadsFallShort(file, q, size, k - 1);
      NextOffset(k - 1, size);
    }
  }

  // Consecutive reads, until nothing is left, make up exactly the matching rows if and only
  // if their size is within the cap, or so is the number of rows.
  lemma ReadsMakeTheWholeIff(file: seq<Row>, q: Query, size: nat, k: nat)
    requires size > 0 && k * size >= |Filter(Matches(q), file)|
    ensures ReadOn(file, q, size, k) == Filter(Matches(q), file) <==>
              size <= MAX_LIMIT || |Filter(Matches(q), file)| <= MAX_LIMIT
  {
    var found := Filter(Matches(q), file);
    if size <= MAX_LIMIT {
      ReadsWithinLimit(file, q, size, k);
      PagesArePrefix(found, size, k);
    } else if k > 0 {
      ReadsFallShort(file, q, size, k);
    }
  }

  // ---- what reading finds ----

  // The address, if one is asked for, sent or received it, and its time lies in the span.
  ghost predicate Wanted(q: Query, r: Row) {
    && (q.address != "" ==> q.address in [r.from, r.to])
    && (forall t :: q.fromTs == Some(t) ==> t <= r.timestamp)
    && (forall t :: q.toTs == Some(t) ==> r.timestamp <= t)
  }

  // Reading page after page, with pages of at most 500, finds exactly the wanted rows of the
  // file, in the order of the file.
  lemma ReadsFindTheWanted(file: seq<Row>, q: Query, size: nat, k: nat)
    requires 0 < size <= 500 && k * size >= |file|
    ensures var found := ReadOn(file, q, size, k);
            && (forall r :: r in found <==> r in file && Wanted(q, r))
            && IsPartOf(found, file)
  {
    var found := Filter(Matches(q), file);
    ReadsWithinLimit(file, q, size, k);
    PagesArePrefix(found, size, k);
    FilterIsShorter(Matches(q), file);
    FilterIsPart(Matches(q), file);
  }

  // s is t with some rows left out.
  ghost predicate IsPartOf(s: seq<Row>, t: seq<Row>) {
    exists at: seq<nat> :: Places(at, s, t)
  }

  ghost predicate Places(at: seq<nat>, s: seq<Row>, t: seq<Row>) {
    && |at| == |s| && (forall i :: 0 <= i < |at| ==> at[i] < |t| && s[i] == t[at[i]])
    && forall i, j :: 0 <= i < j < |at| ==> at[i] < at[j]
  }

  lemma {:induction false} FilterIsShorter(keep: Row -> bool, rows: seq<Row>)
    ensures |Filter(keep, rows)| <= |rows|
  {
    if rows != [] { FilterIsShorter(keep, rows[..|rows| - 1]); }
  }

  lemma {:induction false} FilterIsPart(keep: Row -> bool, rows: seq<Row>)
    ensures IsPartOf(Filter(keep, rows), rows)
  {
    hide Places;
    if rows == [] {
      assert Filter(keep, rows) == [];
      assert Places([], [], []) by { NothingPlaced(); }
    } else {
      var n := |rows| - 1;
      var s := Filter(keep, rows[..n]);
      FilterIsPart(keep, rows[..n]);
      var at :| Places(at, s, rows[..n]);
      OneRowMore(at, s, rows[..n], rows[n]);
      assert rows == rows[..n] + [rows[n]];
      assert Filter(keep, rows) == if keep(rows[n]) then s + [rows[n]] else s;
    }
  }

  lemma NothingPlaced()
    ensures Places([], [], [])
  { }

  lemma OneRowMore(at: seq<nat>, s: seq<Row>, t: seq<Row>, r: Row)
    requires Places(at, s, t)
    ensures Places(at, s, t + [r]) && Places(at + [|t|], s + [r], t + [r])
  { }
}
