/** The bounded, append-only operations log kept in one bucket of the database
    (server/storage/operations.go): big-endian keys, a pruning loop under a cursor,
    and a newest-first pager that a reader walks while the log keeps moving. */
module OperationsLog {
  import opened Models
  import opened Text

  const U64 := 0x1_0000_0000_0000_0000

  // ---------- keys ----------

  function BigEndian(v: nat, n: nat): (key: seq<Byte>)
    ensures |key| == n
  {
    if n == 0 then [] else BigEndian(v / 256, n - 1) + [(v % 256) as char]
  }

  /** The bucket key of a sequence number: eight bytes, most significant first. */
  function SeqKey(s: nat): (key: seq<Byte>) {
    BigEndian(s, 8)
  }

  function KeyValue(key: seq<Byte>): nat {
    if key == [] then 0 else KeyValue(key[..|key| - 1]) * 256 + key[|key| - 1] as int
  }

  function Pow256(n: nat): nat {
    if n == 0 then 1 else 256 * Pow256(n - 1)
  }

  lemma {:induction false} BigEndianOrder(v: nat, w: nat, n: nat)
    requires v < Pow256(n) && w < Pow256(n)
    ensures Less(BigEndian(v, n), BigEndian(w, n)) <==> v < w
    ensures BigEndian(v, n) == BigEndian(w, n) <==> v == w
  {
    if n > 0 {
      var a, b := BigEndian(v / 256, n - 1), BigEndian(w / 256, n - 1);
      var x: char, y: char := (v % 256) as char, (w % 256) as char;
      BigEndianOrder(v / 256, w / 256, n - 1);
      LessAppend(a, b, x, y);
      assert BigEndian(v, n)[..n - 1] == a && BigEndian(w, n)[..n - 1] == b;
      assert BigEndian(v, n)[n - 1] == x && BigEndian(w, n)[n - 1] == y;
    }
  }

  lemma {:induction false} BigEndianInverse(v: nat, n: nat)
    requires v < Pow256(n)
    ensures KeyValue(BigEndian(v, n)) == v
  {
    if n > 0 {
      BigEndianInverse(v / 256, n - 1);
      assert BigEndian(v, n)[..n - 1] == BigEndian(v / 256, n - 1);
    }
  }

  lemma {:induction false} KeyValueInverse(key: seq<Byte>)
    ensures KeyValue(key) < Pow256(|key|)
    ensures BigEndian(KeyValue(key), |key|) == key
  {
    if key != [] {
      var init, last := key[..|key| - 1], key[|key| - 1];
      KeyValueInverse(init);
      assert KeyValue(key) / 256 == KeyValue(init) && KeyValue(key) % 256 == last as int;
      assert key == init + [last];
    }
  }

  lemma Pow256Eight()
    ensures Pow256(8) == U64
  {
    assert Pow256(4) == 256 * 256 * 256 * 256;
  }

  /** On every 64-bit number the byte order of the keys is the numeric order, and the
      encoding is a bijection with the eight-byte keys. */
  lemma SeqKeyOrder(s: nat, t: nat)
    requires s < U64 && t < U64
    ensures Less(SeqKey(s), SeqKey(t)) <==> s < t
    ensures SeqKey(s) == SeqKey(t) <==> s == t
  {
    Pow256Eight();
    BigEndianOrder(s, t, 8);
  }

  lemma SeqKeyBijection(s: nat, key: seq<Byte>)
    requires s < U64 && |key| == 8
    ensures KeyValue(SeqKey(s)) == s
    ensures KeyValue(key) < U64 && SeqKey(KeyValue(key)) == key
  {
    Pow256Eight();
    BigEndianInverse(s, 8);
    KeyValueInverse(key);
  }

  // ---------- what the log means, apart from its encoding ----------

  datatype Log = Log(sequence: nat, ops: seq<Operation>)

  ghost predicate Ordered(log: Log) {
    && (forall i :: 0 <= i < |log.ops| ==> 1 <= log.ops[i].seqNo <= log.sequence)
    && (forall i, j :: 0 <= i < j < |log.ops| ==> log.ops[i].seqNo < log.ops[j].seqNo)
  }

  function DropThrough(ops: seq<Operation>, cutoff: int): seq<Operation> {
    if ops != [] && ops[0].seqNo <= cutoff then DropThrough(ops[1..], cutoff) else ops
  }

  function Numbered(op: Operation, seqNo: nat, now: string): Operation {
    op.(seqNo := seqNo, time := if op.time == "" then now else op.time)
  }

  /** One append: the next number is taken, never an old one, and everything more than
      `kept` behind it goes. */
  function Appended(log: Log, kept: nat, op: Operation, now: string): Log {
    var s := log.sequence + 1;
    Log(s, DropThrough(log.ops + [Numbered(op, s, now)], s - kept))
  }

  /** Whatever ordered log an append starts from, it keeps exactly the entries within `kept`
      of the new number, in order. */
  lemma AppendedExact(log: Log, kept: nat, op: Operation, now: string)
    requires Ordered(log)
    ensures var after := Appended(log, kept, op, now);
      && Ordered(after)
      && forall o :: o in after.ops <==>
           (o in log.ops || FiledAs(o, op, after.sequence, now)) && o.seqNo > after.sequence - kept
  {
    var s := log.sequence + 1;
    var grown := Log(s, log.ops + [Numbered(op, s, now)]);
    assert Ordered(grown);
    DropThroughExact(grown, s - kept);
    forall o ensures o in grown.ops <==> o in log.ops || o == Numbered(op, s, now) {}
  }

  lemma {:induction false} DropThroughExact(log: Log, cutoff: int)
    requires Ordered(log)
    ensures Ordered(log.(ops := DropThrough(log.ops, cutoff)))
    ensures forall o :: o in DropThrough(log.ops, cutoff) <==> o in log.ops && o.seqNo > cutoff
    decreases |log.ops|
  {
    var ops := log.ops;
    if ops != [] && ops[0].seqNo <= cutoff {
      DropThroughExact(log.(ops := ops[1..]), cutoff);
      forall o ensures o in DropThrough(ops, cutoff) <==> o in ops && o.seqNo > cutoff {
        assert o in ops <==> o == ops[0] || o in ops[1..];
      }
    } else {
      forall o | o in ops ensures o.seqNo > cutoff {
        var k :| 0 <= k < |ops| && ops[k] == o;
        assert k == 0 || ops[0].seqNo < ops[k].seqNo;
      }
    }
  }

  /** The log after appending `ops`, each with its time, to an empty bucket. */
  function LogAfter(kept: nat, ops: seq<(Operation, string)>): Log {
    if ops == [] then Log(0, [])
    else
      var last := ops[|ops| - 1];
      Appended(LogAfter(kept, ops[..|ops| - 1]), kept, last.0, last.1)
  }

  /** `o` is `op` as filed at `now`: all its fields are kept but the number, and a blank time, which
      becomes `now`. */
  ghost predicate FiledAs(o: Operation, op: Operation, seqNo: nat, now: string) {
    && o.seqNo == seqNo
    && (op.time != "" ==> o == op.(seqNo := seqNo))
    && (op.time == "" ==> o == op.(seqNo := seqNo, time := now))
  }

  /** Everything ever appended, numbered 1, 2, 3, ... */
  function AllNumbered(ops: seq<(Operation, string)>): (all: seq<Operation>)
    ensures |all| == |ops|
    ensures forall i :: 0 <= i < |all| ==> FiledAs(all[i], ops[i].0, i + 1, ops[i].1)
  {
    seq(|ops|, i requires 0 <= i < |ops| => Numbered(ops[i].0, i + 1, ops[i].1))
  }

  function LastOf(ops: seq<Operation>, n: nat): seq<Operation> {
    if |ops| <= n then ops else ops[|ops| - n..]
  }

  /** After every append the log is exactly the last `kept` of everything appended, numbered
      contiguously up to the count of it all. */
  lemma {:induction false} WindowExact(kept: nat, ops: seq<(Operation, string)>)
    ensures LogAfter(kept, ops) == Log(|ops|, LastOf(AllNumbered(ops), kept))
  {
    if ops != [] {
      var n, init, last := |ops|, ops[..|ops| - 1], ops[|ops| - 1];
      WindowExact(kept, init);
      assert AllNumbered(ops) == AllNumbered(init) + [Numbered(last.0, n, last.1)];
      WindowStep(AllNumbered(init), Numbered(last.0, n, last.1), kept);
    }
  }

  lemma WindowStep(all: seq<Operation>, next: Operation, kept: nat)
    requires forall i :: 0 <= i < |all| ==> all[i].seqNo == i + 1
    requires next.seqNo == |all| + 1
    ensures DropThrough(LastOf(all, kept) + [next], next.seqNo - kept) == LastOf(all + [next], kept)
  {
    DropOne(LastOf(all, kept) + [next], next.seqNo - kept);
  }

  /** Of a contiguous run of numbers, the cutoff at or just before the first takes one or none. */
  lemma DropOne(ops: seq<Operation>, cutoff: int)
    requires ops != [] && cutoff <= ops[0].seqNo
    requires |ops| > 1 ==> ops[1].seqNo > cutoff
    ensures DropThrough(ops, cutoff) == if ops[0].seqNo == cutoff then ops[1..] else ops
  {
    if ops[0].seqNo == cutoff {
      assert DropThrough(ops[1..], cutoff) == ops[1..];
    }
  }

  // ---------- pages ----------

  predicate Matches(op: Operation, host: string, before: nat) {
    (host == "" || op.hostname == host) && (before == 0 || op.seqNo < before)
  }

  /** Everything a reader asked for, newest first. */
  function Matching(ops: seq<Operation>, host: string, before: nat): seq<Operation> {
    if ops == [] then []
    else
      var init, last := ops[..|ops| - 1], ops[|ops| - 1];
      (if Matches(last, host, before) then [last] else []) + Matching(init, host, before)
  }

  function Page(ops: seq<Operation>, host: string, before: nat, limit: int): seq<Operation> {
    var all := Matching(ops, host, before);
    if limit <= 0 then [] else if |all| <= limit then all else all[..limit]
  }

  /** What a reader asked for, said outright: of that host if one is named, and older than `before` if
      that is not 0. */
  ghost predicate AskedFor(op: Operation, host: string, before: nat) {
    && (host != "" ==> op.hostname == host)
    && (before != 0 ==> op.seqNo < before)
  }

  ghost predicate NewestFirst(ops: seq<Operation>) {
    forall i, j :: 0 <= i < j < |ops| ==> ops[i].seqNo > ops[j].seqNo
  }

  lemma {:induction false} MatchingExact(log: Log, host: string, before: nat)
    requires Ordered(log)
    ensures NewestFirst(Matching(log.ops, host, before))
    ensures forall o :: o in Matching(log.ops, host, before) <==> o in log.ops && Matches(o, host, before)
    decreases |log.ops|
  {
    if log.ops != [] {
      var init, last := log.ops[..|log.ops| - 1], log.ops[|log.ops| - 1];
      MatchingExact(log.(ops := init), host, before);
      assert log.ops == init + [last];
      var older := Matching(init, host, before);
      forall k | 0 <= k < |older| ensures older[k].seqNo < last.seqNo {
        assert older[k] in init;
      }
    }
  }

  /** A page is newest first, holds only what was asked for, and leaves out nothing that
      matches unless it is full, in which case what it leaves out is older. */
  lemma PageExact(log: Log, host: string, before: nat, limit: nat)
    requires Ordered(log) && limit > 0
    ensures var page := Page(log.ops, host, before, limit);
      && |page| <= limit && NewestFirst(page)
      && (forall o :: o in page ==> o in log.ops && AskedFor(o, host, before))
      && (forall o :: o in log.ops && AskedFor(o, host, before) && o !in page ==>
            |page| == limit && o.seqNo < page[limit - 1].seqNo)
  {
    MatchingExact(log, host, before);
    FrontExact(Matching(log.ops, host, before), limit);
  }

  lemma FrontExact(all: seq<Operation>, limit: nat)
    requires NewestFirst(all) && limit > 0
    ensures var page := if |all| <= limit then all else all[..limit];
      && NewestFirst(page)
      && (forall o :: o in page ==> o in all)
      && (forall o :: o in all && o !in page ==> |page| == limit && o.seqNo < page[limit - 1].seqNo)
  {
    if |all| > limit {
      var page := all[..limit];
      assert forall k :: 0 <= k < limit ==> all[k] in page;
      forall o | o in all && o !in page ensures o.seqNo < page[limit - 1].seqNo {
        var k :| 0 <= k < |all| && all[k] == o;
      }
    }
  }

  // ---------- paging while the log moves ----------

  function AppendAll(log: Log, kept: nat, arrivals: seq<(Operation, string)>): Log
    decreases |arrivals|
  {
    if arrivals == [] then log
    else AppendAll(Appended(log, kept, arrivals[0].0, arrivals[0].1), kept, arrivals[1..])
  }

  /** Appends never bring an old number back: below the old sequence, the log only shrinks. */
  lemma {:induction false} AppendAllOnlyDrops(log: Log, kept: nat, arrivals: seq<(Operation, string)>)
    requires Ordered(log)
    ensures var after := AppendAll(log, kept, arrivals);
      && Ordered(after) && after.sequence == log.sequence + |arrivals|
      && forall o :: o in after.ops && o.seqNo <= log.sequence ==> o in log.ops
    decreases |arrivals|
  {
    if arrivals != [] {
      AppendedExact(log, kept, arrivals[0].0, arrivals[0].1);
      AppendAllOnlyDrops(Appended(log, kept, arrivals[0].0, arrivals[0].1), kept, arrivals[1..]);
    }
  }

  /** What a reader collected, and the log as it stood when the last page was read. */
  datatype Reading = Reading(ops: seq<Operation>, pages: nat, last: Log)

  /** A reader pages back until a short page, taking each page's last number as the next
      `before`, while `arrivals(i)` is appended (and the surplus pruned) after page `i`. */
  ghost function ReadAll(log: Log, kept: nat, host: string, before: nat, limit: nat,
                         arrivals: nat -> seq<(Operation, string)>, i: nat): Reading
    requires Ordered(log) && limit > 0
    decreases if before == 0 then log.sequence + 1 else before
  {
    PageExact(log, host, before, limit);
    AppendAllOnlyDrops(log, kept, arrivals(i));
    var page := Page(log.ops, host, before, limit);
    if |page| < limit then Reading(page, 1, log)
    else
      assert page[limit - 1] in page;
      var rest := ReadAll(AppendAll(log, kept, arrivals(i)), kept, host, page[limit - 1].seqNo, limit,
                          arrivals, i + 1);
      Reading(page + rest.ops, rest.pages + 1, rest.last)
  }

  lemma {:induction false} ReadAllLast(log: Log, kept: nat, host: string, before: nat, limit: nat,
                                       arrivals: nat -> seq<(Operation, string)>, i: nat)
    requires Ordered(log) && limit > 0
    ensures var last := ReadAll(log, kept, host, before, limit, arrivals, i).last;
      last.sequence >= log.sequence
      && forall o :: o in last.ops && o.seqNo <= log.sequence ==> o in log.ops
    decreases if before == 0 then log.sequence + 1 else before
  {
    PageExact(log, host, before, limit);
    AppendAllOnlyDrops(log, kept, arrivals(i));
    var page := Page(log.ops, host, before, limit);
    if |page| == limit {
      assert page[limit - 1] in page;
      ReadAllLast(AppendAll(log, kept, arrivals(i)), kept, host, page[limit - 1].seqNo, limit, arrivals, i + 1);
    }
  }

  lemma {:induction false} PagingSound(log: Log, kept: nat, host: string, before: nat, limit: nat,
                                       arrivals: nat -> seq<(Operation, string)>, i: nat)
    requires Ordered(log) && limit > 0
    ensures var r := ReadAll(log, kept, host, before, limit, arrivals, i);
      && NewestFirst(r.ops)
      && (forall o :: o in r.ops ==> o in log.ops && AskedFor(o, host, before))
    decreases if before == 0 then log.sequence + 1 else before
  {
    PageExact(log, host, before, limit);
    var page := Page(log.ops, host, before, limit);
    if |page| == limit {
      var next, from := AppendAll(log, kept, arrivals(i)), page[limit - 1].seqNo;
      assert page[limit - 1] in page;
      AppendAllOnlyDrops(log, kept, arrivals(i));
      PagingSound(next, kept, host, from, limit, arrivals, i + 1);
      NewestFirstConcat(page, ReadAll(next, kept, host, from, limit, arrivals, i + 1).ops);
    }
  }

  lemma NewestFirstConcat(a: seq<Operation>, b: seq<Operation>)
    requires NewestFirst(a) && NewestFirst(b)
    requires a != [] && forall o :: o in b ==> o.seqNo < a[|a| - 1].seqNo
    ensures NewestFirst(a + b)
  {
    forall x, y | 0 <= x < y < |a + b| ensures (a + b)[x].seqNo > (a + b)[y].seqNo {
      if x < |a| <= y {
        assert (a + b)[y] in b;
        assert x == |a| - 1 || a[x].seqNo > a[|a| - 1].seqNo;
      }
    }
  }

  lemma {:induction false} PagingComplete(log: Log, kept: nat, host: string, before: nat, limit: nat,
                                          arrivals: nat -> seq<(Operation, string)>, i: nat)
    requires Ordered(log) && limit > 0
    ensures var r := ReadAll(log, kept, host, before, limit, arrivals, i);
      forall o :: o in log.ops && AskedFor(o, host, before) && o in r.last.ops ==> o in r.ops
    decreases if before == 0 then log.sequence + 1 else before
  {
    PageExact(log, host, before, limit);
    var page := Page(log.ops, host, before, limit);
    if |page| == limit {
      var next, from := AppendAll(log, kept, arrivals(i)), page[limit - 1].seqNo;
      assert page[limit - 1] in page;
      AppendAllOnlyDrops(log, kept, arrivals(i));
      PagingComplete(next, kept, host, from, limit, arrivals, i + 1);
      ReadAllLast(next, kept, host, from, limit, arrivals, i + 1);
    }
  }

  lemma {:induction false} PagingShort(log: Log, kept: nat, host: string, before: nat, limit: nat,
                                       arrivals: nat -> seq<(Operation, string)>, i: nat)
    requires Ordered(log) && limit > 0
    ensures var r := ReadAll(log, kept, host, before, limit, arrivals, i);
      r.pages > 0 && (r.pages - 1) * limit <= |r.ops| < r.pages * limit
    decreases if before == 0 then log.sequence + 1 else before
  {
    PageExact(log, host, before, limit);
    var page := Page(log.ops, host, before, limit);
    if |page| == limit {
      var next, from := AppendAll(log, kept, arrivals(i)), page[limit - 1].seqNo;
      assert page[limit - 1] in page;
      AppendAllOnlyDrops(log, kept, arrivals(i));
      PagingShort(next, kept, host, from, limit, arrivals, i + 1);
      var rest := ReadAll(next, kept, host, from, limit, arrivals, i + 1);
      assert (rest.pages + 1) * limit == rest.pages * limit + limit;
      assert rest.pages * limit == (rest.pages - 1) * limit + limit;
    }
  }

  /** Paging is sound, free of duplicates, complete and short: whatever is appended and pruned
      between the pages, the reader sees strictly decreasing numbers, only entries that were in
      the log at the first page and match, and every such entry that is still there at the
      last. Every page but the last is full, so no reader goes round for ever. */
  lemma PagingTheorem(log: Log, kept: nat, host: string, before: nat, limit: nat,
                      arrivals: nat -> seq<(Operation, string)>)
    requires Ordered(log) && limit > 0
    ensures var r := ReadAll(log, kept, host, before, limit, arrivals, 0);
      && NewestFirst(r.ops)
      && (forall o :: o in r.ops ==> o in log.ops && AskedFor(o, host, before))
      && (forall o :: o in log.ops && AskedFor(o, host, before) && o in r.last.ops ==> o in r.ops)
      && (r.pages - 1) * limit <= |r.ops| < r.pages * limit
  {
    PagingSound(log, kept, host, before, limit, arrivals, 0);
    PagingComplete(log, kept, host, before, limit, arrivals, 0);
    PagingShort(log, kept, host, before, limit, arrivals, 0);
  }

  // ---------- the bucket ----------

  datatype Entry = Entry(key: seq<Byte>, op: Operation)

  function OpsOf(entries: seq<Entry>): (ops: seq<Operation>)
    ensures |ops| == |entries|
    ensures forall i :: 0 <= i < |ops| ==> ops[i] == entries[i].op
  {
    seq(|entries|, i requires 0 <= i < |entries| => entries[i].op)
  }

  /** Store under a key: in byte order, replacing what the key held. */
  function PutEntry(entries: seq<Entry>, e: Entry): seq<Entry> {
    if entries == [] then [e]
    else if Less(entries[0].key, e.key) then [entries[0]] + PutEntry(entries[1..], e)
    else if entries[0].key == e.key then [e] + entries[1..]
    else [e] + entries
  }

  lemma {:induction false} PutLast(entries: seq<Entry>, e: Entry)
    requires forall i :: 0 <= i < |entries| ==> Less(entries[i].key, e.key)
    ensures PutEntry(entries, e) == entries + [e]
  {
    if entries != [] {
      PutLast(entries[1..], e);
      assert entries == [entries[0]] + entries[1..];
    }
  }

  ghost predicate WellKeyed(entries: seq<Entry>, sequence: nat) {
    && sequence < U64
    && (forall i :: 0 <= i < |entries| ==>
          1 <= entries[i].op.seqNo <= sequence && entries[i].key == SeqKey(entries[i].op.seqNo))
    && (forall i, j :: 0 <= i < j < |entries| ==> Less(entries[i].key, entries[j].key))
  }

  lemma NextIsLast(entries: seq<Entry>, e: Entry, sequence: nat)
    requires WellKeyed(entries, sequence) && sequence + 1 < U64
    requires e.key == SeqKey(sequence + 1)
    ensures forall i :: 0 <= i < |entries| ==> Less(entries[i].key, e.key)
  {
    forall i | 0 <= i < |entries| ensures Less(entries[i].key, e.key) {
      SeqKeyOrder(entries[i].op.seqNo, sequence + 1);
    }
  }

  /** An entry under the next number lands at the end of the bucket. */
  lemma PutNewest(entries: seq<Entry>, e: Entry, sequence: nat)
    requires WellKeyed(entries, sequence) && sequence + 1 < U64
    requires e.op.seqNo == sequence + 1 && e.key == SeqKey(sequence + 1)
    ensures PutEntry(entries, e) == entries + [e]
    ensures WellKeyed(entries + [e], sequence + 1)
    ensures OpsOf(entries + [e]) == OpsOf(entries) + [e.op]
  {
    NextIsLast(entries, e, sequence);
    PutLast(entries, e);
  }

  /** Byte-ordered keys make the log ordered by number. */
  lemma KeysOrder(entries: seq<Entry>, sequence: nat)
    requires WellKeyed(entries, sequence)
    ensures Ordered(Log(sequence, OpsOf(entries)))
  {
    forall i, j | 0 <= i < j < |entries| ensures entries[i].op.seqNo < entries[j].op.seqNo {
      SeqKeyOrder(entries[i].op.seqNo, entries[j].op.seqNo);
    }
  }

  class Bucket {
    /** How many entries the log keeps; 10000 in service. */
    const kept: nat
    var sequence: nat
    var entries: seq<Entry>

    ghost predicate Valid()
      reads this
    {
      WellKeyed(entries, sequence)
    }

    ghost function View(): Log
      reads this
    {
      Log(sequence, OpsOf(entries))
    }

    /** So every theorem above about an ordered log is about this bucket. */
    lemma ViewOrdered()
      requires Valid()
      ensures Ordered(View())
    {
      KeysOrder(entries, sequence);
    }

    constructor (kept: nat)
      ensures Valid() && View() == LogAfter(kept, []) && this.kept == kept
    {
      this.kept := kept;
      sequence, entries := 0, [];
    }

    method AppendOperation(op: Operation, now: string)
      requires Valid() && sequence + 1 < U64
      modifies this
      ensures Valid()
      ensures View() == Appended(old(View()), kept, op, now)
      ensures Ordered(View())
    {
      PutNext(op, now);
      if sequence <= kept {
        ViewOrdered();
        return;
      }
      Prune(sequence - kept);
      ViewOrdered();
    }

    /** Takes the next number and files the operation under it. */
    method PutNext(op: Operation, now: string)
      requires Valid() && sequence + 1 < U64
      modifies this
      ensures Valid() && sequence == old(sequence) + 1
      ensures OpsOf(entries) == old(OpsOf(entries)) + [Numbered(op, sequence, now)]
      ensures FiledAs(entries[|entries| - 1].op, op, sequence, now)
      ensures entries != [] && entries[0].op.seqNo > 0
    {
      var stamped := if op.time == "" then op.(time := now) else op;
      sequence := sequence + 1;
      var e := Entry(SeqKey(sequence), stamped.(seqNo := sequence));
      PutNewest(entries, e, sequence - 1);
      entries := PutEntry(entries, e);
    }

    /** Deletes every entry at or below `cutoff`. Deleting under a cursor skips the next key,
        so each round seeks the first one again. */
    method Prune(cutoff: nat)
      requires Valid() && cutoff < U64
      modifies this`entries
      ensures Valid()
      ensures OpsOf(entries) == DropThrough(old(OpsOf(entries)), cutoff)
    {
      var key := SeqKey(cutoff);
      while entries != [] && !Less(key, entries[0].key)
        invariant Valid()
        invariant DropThrough(OpsOf(entries), cutoff) == DropThrough(old(OpsOf(entries)), cutoff)
      {
        SeqKeyOrder(cutoff, entries[0].op.seqNo);
        assert OpsOf(entries)[1..] == OpsOf(entries[1..]);
        entries := entries[1..];
      }
      if entries != [] {
        SeqKeyOrder(cutoff, entries[0].op.seqNo);
      }
    }

    /** The cursor's seek: the first key at or after `key`, or the end when there is none. */
    method Seek(key: seq<Byte>) returns (c: nat)
      ensures c <= |entries|
      ensures forall i :: 0 <= i < c ==> Less(entries[i].key, key)
      ensures c < |entries| ==> !Less(entries[c].key, key)
    {
      c := 0;
      while c < |entries| && Less(entries[c].key, key)
        invariant c <= |entries|
        invariant forall i :: 0 <= i < c ==> Less(entries[i].key, key)
      {
        c := c + 1;
      }
    }

    /** Where a read starts: how many entries lie strictly below `before`, or all of them. The
        cursor is on the last of these, or nowhere when there is none. */
    method Start(before: nat) returns (c: nat)
      requires Valid() && before < U64
      ensures c <= |entries|
      ensures before == 0 ==> c == |entries|
      ensures before > 0 ==> forall i :: 0 <= i < |entries| ==> (entries[i].op.seqNo < before <==> i < c)
    {
      c := |entries|;
      if before > 0 {
        c := Seek(SeqKey(before));
        forall i | 0 <= i < |entries| ensures entries[i].op.seqNo < before <==> i < c {
          SeqKeyOrder(entries[i].op.seqNo, before);
          if i >= c {
            LessNotBelow(entries[c].key, entries[i].key, SeqKey(before));
          }
        }
      }
    }

    method GetOperations(hostname: string, before: nat, limit: int) returns (ops: seq<Operation>)
      requires Valid() && before < U64
      ensures Ordered(View()) && ops == Page(View().ops, hostname, before, limit)
    {
      ViewOrdered();
      var c := Start(before);
      MatchingBelow(OpsOf(entries), hostname, before, c);
      ops := Walk(OpsOf(entries), c, hostname, before, limit);
    }

    /** Steps the cursor back from `start`, collecting the entries of the host asked for. */
    static method Walk(log: seq<Operation>, start: nat, hostname: string, ghost before: nat, limit: int)
      returns (ops: seq<Operation>)
      requires start <= |log|
      requires before > 0 ==> forall i :: 0 <= i < start ==> log[i].seqNo < before
      ensures ops == Page(log[..start], hostname, before, limit)
    {
      ops := [];
      var c: nat := start;
      ghost var wanted := Matching(log[..start], hostname, before);
      while c > 0 && |ops| < limit
        invariant c <= start
        invariant Collected(log, c, hostname, before, wanted, ops)
        invariant |ops| <= limit || ops == []
      {
        c := c - 1;
        var op := log[c];
        CollectedStep(log, c, hostname, before, wanted, ops);
        if hostname != "" && op.hostname != hostname {
          continue;
        }
        ops := ops + [op];
      }
    }
  }

  /** With the cursor at `c`, `ops` is the front of what is wanted and the rest lies below. */
  ghost predicate Collected(log: seq<Operation>, c: nat, host: string, before: nat,
                            wanted: seq<Operation>, ops: seq<Operation>)
    requires c <= |log|
  {
    |ops| <= |wanted| && ops == wanted[..|ops|] && Matching(log[..c], host, before) == wanted[|ops|..]
  }

  lemma CollectedStep(log: seq<Operation>, c: nat, host: string, before: nat,
                      wanted: seq<Operation>, ops: seq<Operation>)
    requires c < |log| && (before > 0 ==> log[c].seqNo < before)
    requires Collected(log, c + 1, host, before, wanted, ops)
    ensures Collected(log, c, host, before, wanted,
                      if host != "" && log[c].hostname != host then ops else ops + [log[c]])
  {
    MatchingStep(log, host, before, c);
    if host == "" || log[c].hostname == host {
      TakeNext(wanted, |ops|, log[c], Matching(log[..c], host, before));
    }
  }

  lemma TakeNext(all: seq<Operation>, k: nat, next: Operation, rest: seq<Operation>)
    requires k <= |all| && all[k..] == [next] + rest
    ensures k < |all| && all[..k] + [next] == all[..k + 1] && rest == all[k + 1..]
  {
    assert |all[k..]| > 0 && all[k..][0] == next;
    assert rest == all[k..][1..];
  }

  lemma MatchingStep(ops: seq<Operation>, host: string, before: nat, c: nat)
    requires c < |ops|
    ensures var older := Matching(ops[..c], host, before);
      Matching(ops[..c + 1], host, before) == if Matches(ops[c], host, before) then [ops[c]] + older else older
  {
    assert ops[..c + 1][..c] == ops[..c];
  }

  lemma LessNotBelow(a: string, b: string, bound: string)
    requires !Less(a, bound) && (a == b || Less(a, b))
    ensures !Less(b, bound)
  {
    if Less(b, bound) && Less(a, b) {
      LessTransitive(a, b, bound);
    }
  }

  /** Entries at or past the cursor match nothing below it. */
  lemma {:induction false} MatchingBelow(ops: seq<Operation>, host: string, before: nat, c: nat)
    requires c <= |ops|
    requires c < |ops| ==> before > 0
    requires forall i :: c <= i < |ops| ==> ops[i].seqNo >= before
    ensures Matching(ops, host, before) == Matching(ops[..c], host, before)
  {
    if c < |ops| {
      var init := ops[..|ops| - 1];
      MatchingBelow(init, host, before, c);
      assert init[..c] == ops[..c];
    } else {
      assert ops[..c] == ops;
    }
  }
}
