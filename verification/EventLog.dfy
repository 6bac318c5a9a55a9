// The durable event log (Store.ts): one envelope a line, appended, scanned back byte by
// byte, and rewritten by compaction. What JSON does to one envelope is opaque: a codec
// whose encodings are non-empty, contain no newline, and decode to what was encoded.
module EventLog {
  import opened Bytes
  import opened Events
  import opened Order

  const NEWLINE: Byte := 10
  const CHUNK: nat := 1_000_000

  datatype Codec<!Env(!new)> = Codec(encode: Env -> seq<Byte>, decode: seq<Byte> -> Option<Env>, durable: Env -> bool)

  ghost predicate Faithful<Env(!new)>(c: Codec<Env>) {
    forall e :: c.encode(e) != [] && NEWLINE !in c.encode(e) && c.decode(c.encode(e)) == Some(e)
  }

  // ---- what a file says ----

  function LineEnd(b: seq<Byte>): (k: nat)
    ensures k <= |b|
    ensures NEWLINE !in b[..k]
    ensures k < |b| ==> b[k] == NEWLINE
  {
    if b == [] || b[0] == NEWLINE then 0
    else
      var k := 1 + LineEnd(b[1..]);
      assert b[..k] == [b[0]] + b[1..][..k - 1];
      k
  }

  // A line that does not parse is skipped.
  function ReadLine<Env(!new)>(c: Codec<Env>, line: seq<Byte>): seq<Env> {
    if line == [] then [] else match c.decode(line) case Some(e) => [e] case None => []
  }

  function Parse<Env(!new)>(c: Codec<Env>, b: seq<Byte>): seq<Env> {
    if b == [] then []
    else
      var k := LineEnd(b);
      ReadLine(c, b[..k]) + (if k == |b| then [] else Parse(c, b[k + 1..]))
  }

  function Line<Env(!new)>(c: Codec<Env>, e: Env): seq<Byte> { c.encode(e) + [NEWLINE] }

  function Rendered<Env(!new)>(c: Codec<Env>, events: seq<Env>): seq<Byte> {
    if events == [] then [] else Rendered(c, events[..|events| - 1]) + Line(c, events[|events| - 1])
  }

  // The file ends where a line ends.
  predicate AtLineEnd(b: seq<Byte>) { b == [] || b[|b| - 1] == NEWLINE }

  // ---- reading ----

  method ReadEvents<Env(!new)>(c: Codec<Env>, buf: seq<Byte>) returns (out: seq<Env>)
    ensures out == Parse(c, buf)
  {
    hide Parse, LineEnd;
    out := [];
    var start, i := 0, 0;
    assert buf[0..] == buf;
    while i <= |buf|
      invariant 0 <= start <= i <= |buf| + 1
      invariant i <= |buf| ==> NEWLINE !in buf[start..i] && Parse(c, buf) == out + Parse(c, buf[start..])
      invariant i > |buf| ==> Parse(c, buf) == out
    {
      if i == |buf| || buf[i] == NEWLINE {
        ParseStep(c, buf, start, i);
        if i > start {
          var line := c.decode(buf[start..i]);
          if line.Some? { out := out + [line.value]; }
        }
        start := i + 1;
      } else {
        assert buf[start..i + 1] == buf[start..i] + [buf[i]];
      }
      i := i + 1;
    }
  }

  // One line of the scan.
  lemma ParseStep<Env(!new)>(c: Codec<Env>, buf: seq<Byte>, start: nat, i: nat)
    requires start <= i <= |buf| && NEWLINE !in buf[start..i] && (i == |buf| || buf[i] == NEWLINE)
    ensures Parse(c, buf[start..]) == ReadLine(c, buf[start..i]) + (if i == |buf| then [] else Parse(c, buf[i + 1..]))
  {
    var b := buf[start..];
    assert b[..i - start] == buf[start..i];
    LineEndIs(b, i - start);
    if i < |buf| { assert b[i - start + 1..] == buf[i + 1..]; }
  }

  lemma {:induction false} LineEndIs(b: seq<Byte>, k: nat)
    requires k <= |b| && NEWLINE !in b[..k] && (k == |b| || b[k] == NEWLINE)
    ensures LineEnd(b) == k
  {
    if k > 0 {
      assert b[0] == b[..k][0];
      assert b[..k][1..] == b[1..][..k - 1];
      LineEndIs(b[1..], k - 1);
    }
  }

  // A file that ends at a line end reads separately from whatever follows it.
  lemma {:induction false} ParseSplits<Env(!new)>(c: Codec<Env>, a: seq<Byte>, b: seq<Byte>)
    requires AtLineEnd(a)
    ensures Parse(c, a + b) == Parse(c, a) + Parse(c, b)
    decreases |a|
  {
    if a == [] {
      assert a + b == b;
    } else {
      var k := LineEnd(a);
      assert a[..|a|] == a && NEWLINE in a;
      assert (a + b)[..k] == a[..k] && (a + b)[k] == a[k];
      LineEndIs(a + b, k);
      assert (a + b)[k + 1..] == a[k + 1..] + b;
      ParseSplits(c, a[k + 1..], b);
    }
  }

  lemma ParseLine<Env(!new)>(c: Codec<Env>, e: Env)
    requires Faithful(c)
    ensures Parse(c, Line(c, e)) == [e] && AtLineEnd(Line(c, e))
  {
    var b := Line(c, e);
    var k := |c.encode(e)|;
    assert b[..k] == c.encode(e) && b[k + 1..] == [];
    LineEndIs(b, k);
  }

  // What was appended is read back, after everything there was before, whenever the file
  // ended at a line end.
  lemma AppendReadsBack<Env(!new)>(c: Codec<Env>, file: seq<Byte>, e: Env)
    requires Faithful(c) && AtLineEnd(file)
    ensures Parse(c, file + Line(c, e)) == Parse(c, file) + [e]
    ensures AtLineEnd(file + Line(c, e))
  {
    ParseSplits(c, file, Line(c, e));
    ParseLine(c, e);
  }

  lemma ParseUnbroken<Env(!new)>(c: Codec<Env>, line: seq<Byte>)
    requires NEWLINE !in line
    ensures Parse(c, line) == ReadLine(c, line) && Parse(c, line + [NEWLINE]) == ReadLine(c, line)
  {
    var b := line + [NEWLINE];
    assert line[..|line|] == line && b[..|line|] == line && b[|line| + 1..] == [];
    LineEndIs(line, |line|);
    LineEndIs(b, |line|);
    assert ReadLine(c, line) + [] == ReadLine(c, line);
  }

  // After a torn write it is not: the new envelope is glued to the torn tail, and what is
  // read there is whatever the glued line says.
  lemma AppendAfterTornTail<Env(!new)>(c: Codec<Env>, file: seq<Byte>, torn: seq<Byte>, e: Env)
    requires Faithful(c) && AtLineEnd(file) && NEWLINE !in torn
    ensures Parse(c, file + torn) == Parse(c, file) + ReadLine(c, torn)
    ensures Parse(c, file + torn + Line(c, e)) == Parse(c, file) + ReadLine(c, torn + c.encode(e))
  {
    hide Parse, LineEnd, ReadLine;
    ParseSplits(c, file, torn);
    ParseUnbroken(c, torn);
    var glued := torn + c.encode(e);
    assert file + torn + Line(c, e) == file + (glued + [NEWLINE]);
    ParseUnbroken(c, glued);
    ParseSplits(c, file, glued + [NEWLINE]);
  }

  // So an appended envelope reads back after all earlier ones exactly if there was no torn
  // tail, or the tail says nothing by itself and the glued line still says the envelope.
  lemma AppendReadsBackIff<Env(!new)>(c: Codec<Env>, file: seq<Byte>, torn: seq<Byte>, e: Env)
    requires Faithful(c) && AtLineEnd(file) && NEWLINE !in torn
    ensures Parse(c, file + torn + Line(c, e)) == Parse(c, file + torn) + [e]
       <==> torn == [] || (c.decode(torn).None? && c.decode(torn + c.encode(e)) == Some(e))
  {
    hide Parse, LineEnd;
    AppendAfterTornTail(c, file, torn, e);
    var before, tail, glued := Parse(c, file), ReadLine(c, torn), ReadLine(c, torn + c.encode(e));
    assert before + tail + [e] == before + (tail + [e]);
    SameHead(before, glued, tail + [e]);
    assert c.encode(e) != [] && c.decode(c.encode(e)) == Some(e);
    if torn == [] {
      assert torn + c.encode(e) == c.encode(e);
      assert glued == [e] && tail + [e] == [e];
    } else {
      assert torn + c.encode(e) != [];
      assert |tail + [e]| == 1 <==> c.decode(torn).None?;
      assert glued == tail + [e] ==> |glued| <= 1 && glued[|glued| - 1] == e;
    }
  }

  lemma SameHead<T>(head: seq<T>, a: seq<T>, b: seq<T>)
    ensures head + a == head + b <==> a == b
  {
    assert (head + a)[|head|..] == a && (head + b)[|head|..] == b;
  }

  // A faithful codec of one byte an envelope.
  function OneByte(): Codec<bool> {
    Codec((b: bool) => if b then [1] else [0],
          (line: seq<Byte>) => if |line| == 1 && line[0] <= 1 then Some(line[0] == 1) else None,
          (b: bool) => true)
  }

  // After a tail torn inside an envelope the appended one is lost; after one torn just
  // before its newline, the earlier one is lost with it.
  lemma TornTailLosesEnvelopes(e: bool)
    ensures var c := OneByte();
            && Faithful(c)
            && Parse(c, [1, 10, 2]) == [true] && Parse(c, [1, 10, 2] + Line(c, e)) == [true]
            && Parse(c, [1, 10, 1]) == [true, true] && Parse(c, [1, 10, 1] + Line(c, e)) == [true]
  {
    hide Parse;
    var c := OneByte();
    var file: seq<Byte> := [1, 10];
    ParseLine(c, true);
    assert file == Line(c, true);
    forall k: Byte | k == 1 || k == 2
      ensures Parse(c, [1, 10, k]) == [true] + ReadLine(c, [k]) && Parse(c, [1, 10, k] + Line(c, e)) == [true]
    {
      assert file + [k] == [1, 10, k];
      AppendAfterTornTail(c, file, [k], e);
      assert |[k] + c.encode(e)| == 2;
    }
  }

  // ---- compaction ----

  lemma ParseNothing<Env(!new)>(c: Codec<Env>)
    ensures Parse(c, []) == []
  { }

  lemma {:induction false} ParseRendered<Env(!new)>(c: Codec<Env>, events: seq<Env>)
    requires Faithful(c)
    ensures Parse(c, Rendered(c, events)) == events && AtLineEnd(Rendered(c, events))
  {
    hide Parse;
    if events == [] {
      assert Parse(c, []) == [] by { ParseNothing(c); }
    } else {
      var n := |events| - 1;
      ParseRendered(c, events[..n]);
      AppendReadsBack(c, Rendered(c, events[..n]), events[n]);
    }
  }

  // The rewrite loop, flushing about every megabyte.
  method Rewrite<Env(!new)>(c: Codec<Env>, kept: seq<Env>) returns (file: seq<Byte>)
    ensures file == Rendered(c, kept)
  {
    file := [];
    var chunk: seq<Byte> := [];
    for i := 0 to |kept|
      invariant file + chunk == Rendered(c, kept[..i])
    {
      assert kept[..i + 1][..i] == kept[..i];
      ghost var before := file + chunk;
      chunk := chunk + c.encode(kept[i]) + [NEWLINE];
      assert file + chunk == before + Line(c, kept[i]);
      if |chunk| > CHUNK {
        file := file + chunk;
        chunk := [];
      }
    }
    assert kept[..|kept|] == kept;
    if chunk != [] { file := file + chunk; }
  }

  class Log<Env(!new)> {
    const codec: Codec<Env>
    var file: seq<Byte>

    ghost function Contents(): seq<Env>
      reads this
    {
      Parse(codec, file)
    }

    constructor (c: Codec<Env>)
      ensures codec == c && file == [] && Contents() == []
    {
      codec := c;
      file := [];
    }

    method AppendEvent(e: Env)
      requires Faithful(codec)
      modifies this
      ensures !codec.durable(e) ==> file == old(file)
      ensures codec.durable(e) ==> file == old(file) + Line(codec, e)
      ensures AtLineEnd(old(file)) ==>
                AtLineEnd(file) && Contents() == (if codec.durable(e) then old(Contents()) + [e] else old(Contents()))
    {
      if !codec.durable(e) { return; }
      file := file + codec.encode(e) + [NEWLINE];
      assert file == old(file) + Line(codec, e);
      if AtLineEnd(old(file)) { AppendReadsBack(codec, old(file), e); }
    }

    // Rewrite the log keeping only the chosen envelopes; if nothing is dropped, leave it alone.
    method CompactEvents(keep: Env -> bool) returns (kept: nat, dropped: nat)
      requires Faithful(codec)
      modifies this
      ensures Contents() == Filter(keep, old(Contents()))
      ensures kept == |Contents()| && kept + dropped == |old(Contents())|
      ensures if dropped == 0 then file == old(file) else AtLineEnd(file)
    {
      var all := ReadEvents(codec, file);
      var chosen := Filter(keep, all);
      kept, dropped := |chosen|, |all| - |chosen|;
      if |chosen| == |all| {
        FullFilter(keep, all);
        return;
      }
      file := Rewrite(codec, chosen);
      ParseRendered(codec, chosen);
    }
  }

  lemma {:induction false} FullFilter<T(!new)>(keep: T -> bool, s: seq<T>)
    requires |Filter(keep, s)| == |s|
    ensures Filter(keep, s) == s
  {
    if s != [] {
      var n := |s| - 1;
      FullFilter(keep, s[..n]);
      assert s == s[..n] + [s[n]];
    }
  }

  // ---- any sequence of appends and compactions ----

  datatype Op<!Env(!new)> = Append(e: Env) | Compact(keep: Env -> bool)

  function OnFile<Env(!new)>(c: Codec<Env>, file: seq<Byte>, op: Op<Env>): seq<Byte> {
    match op
    case Append(e) => if c.durable(e) then file + Line(c, e) else file
    case Compact(keep) =>
      var chosen := Filter(keep, Parse(c, file));
      if |chosen| == |Parse(c, file)| then file else Rendered(c, chosen)
  }

  function OnList<Env(!new)>(c: Codec<Env>, list: seq<Env>, op: Op<Env>): seq<Env> {
    match op
    case Append(e) => if c.durable(e) then list + [e] else list
    case Compact(keep) => Filter(keep, list)
  }

  function FileAfter<Env(!new)>(c: Codec<Env>, ops: seq<Op<Env>>): seq<Byte> {
    if ops == [] then [] else OnFile(c, FileAfter(c, ops[..|ops| - 1]), ops[|ops| - 1])
  }

  function ListAfter<Env(!new)>(c: Codec<Env>, ops: seq<Op<Env>>): seq<Env> {
    if ops == [] then [] else OnList(c, ListAfter(c, ops[..|ops| - 1]), ops[|ops| - 1])
  }

  // Reading the file gives exactly the list that the appends and compactions describe.
  lemma {:induction false} LogRefinesList<Env(!new)>(c: Codec<Env>, ops: seq<Op<Env>>)
    requires Faithful(c)
    ensures Parse(c, FileAfter(c, ops)) == ListAfter(c, ops) && AtLineEnd(FileAfter(c, ops))
  {
    if ops != [] {
      var n := |ops| - 1;
      var file := FileAfter(c, ops[..n]);
      LogRefinesList(c, ops[..n]);
      match ops[n]
      case Append(e) => AppendReadsBack(c, file, e);
      case Compact(keep) =>
        ParseRendered(c, Filter(keep, Parse(c, file)));
        if |Filter(keep, Parse(c, file))| == |Parse(c, file)| { FullFilter(keep, Parse(c, file)); }
    }
  }
}
