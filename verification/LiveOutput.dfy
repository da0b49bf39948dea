/** Byte strings and the two things the live-output pipeline does to them. */
module ByteStrings {
  import opened Text

  type Bytes = seq<Byte>

  function Ascii(s: string): Bytes {
    seq(|s|, i requires 0 <= i < |s| => if s[i] as int < 256 then s[i] else '?')
  }

  /** The last `n` bytes of `s`, or all of it. */
  function Last(s: Bytes, n: nat): Bytes {
    if |s| <= n then s else s[|s| - n..]
  }

  function Flatten(parts: seq<Bytes>): Bytes {
    if parts == [] then [] else Flatten(parts[..|parts| - 1]) + parts[|parts| - 1]
  }

  ghost predicate IsSuffix(t: Bytes, s: Bytes) {
    |t| <= |s| && s[|s| - |t|..] == t
  }

  lemma LastExact(s: Bytes, n: nat)
    ensures IsSuffix(Last(s, n), s) && |Last(s, n)| == if |s| < n then |s| else n
  {}

  /** Keeping a tail piece by piece is keeping the tail of the whole. */
  lemma LastAppend(s: Bytes, p: Bytes, n: nat)
    ensures Last(Last(s, n) + p, n) == Last(s + p, n)
  {}

  lemma {:induction false} FlattenConcat(a: seq<Bytes>, b: seq<Bytes>)
    ensures Flatten(a + b) == Flatten(a) + Flatten(b)
  {
    if b == [] {
      assert a + b == a;
    } else {
      assert (a + b)[..|a + b| - 1] == a + b[..|b| - 1];
      FlattenConcat(a, b[..|b| - 1]);
    }
  }
}

/** Bytes carried as a JSON string, which is how output travels: what is not UTF-8 is replaced on the
    way, one replacement character for each byte that starts no character. */
module JsonText {
  import opened Text
  import opened ByteStrings

  /** U+FFFD in UTF-8. */
  const REPLACEMENT: Bytes := [0xEF as char, 0xBF as char, 0xBD as char]

  predicate Within(b: Byte, low: int, high: int) {
    low <= b as int <= high
  }

  /** The length of the character `s` starts with, or 0 when it starts with none. */
  function RuneLength(s: Bytes): (n: nat)
    requires s != []
    ensures n <= |s|
  {
    var b := s[0] as int;
    if b < 0x80 then 1
    else if Within(s[0], 0xC2, 0xDF) && |s| >= 2 && Within(s[1], 0x80, 0xBF) then 2
    else if Within(s[0], 0xE0, 0xEF) && |s| >= 3
      && Within(s[1], if b == 0xE0 then 0xA0 else 0x80, if b == 0xED then 0x9F else 0xBF)
      && Within(s[2], 0x80, 0xBF) then 3
    else if Within(s[0], 0xF0, 0xF4) && |s| >= 4
      && Within(s[1], if b == 0xF0 then 0x90 else 0x80, if b == 0xF4 then 0x8F else 0xBF)
      && Within(s[2], 0x80, 0xBF) && Within(s[3], 0x80, 0xBF) then 4
    else 0
  }

  predicate IsScalar(cp: int) {
    0 <= cp < 0xD800 || 0xE000 <= cp < 0x11_0000
  }

  /** A character's UTF-8 (RFC 3629, section 3). */
  function Encode(cp: nat): (s: Bytes)
    requires IsScalar(cp)
    ensures 0 < |s| <= 4
  {
    if cp < 0x80 then [cp as char]
    else if cp < 0x800 then [(0xC0 + cp / 0x40) as char, (0x80 + cp % 0x40) as char]
    else if cp < 0x1_0000 then
      [(0xE0 + cp / 0x1000) as char, (0x80 + cp / 0x40 % 0x40) as char, (0x80 + cp % 0x40) as char]
    else
      [(0xF0 + cp / 0x4_0000) as char, (0x80 + cp / 0x1000 % 0x40) as char, (0x80 + cp / 0x40 % 0x40) as char,
       (0x80 + cp % 0x40) as char]
  }

  function EncodeAll(cps: seq<nat>): Bytes
    requires forall i :: 0 <= i < |cps| ==> IsScalar(cps[i])
  {
    if cps == [] then [] else Encode(cps[0]) + EncodeAll(cps[1..])
  }

  lemma EncodeRune(cp: nat, rest: Bytes)
    requires IsScalar(cp)
    ensures RuneLength(Encode(cp) + rest) == |Encode(cp)|
  {
    var s, e := Encode(cp) + rest, Encode(cp);
    assert forall i :: 0 <= i < |e| ==> s[i] == e[i];
  }

  lemma DivideBack(q: nat, r: nat)
    ensures r < 0x40 ==> (q * 0x40 + r) / 0x40 == q && (q * 0x40 + r) % 0x40 == r
    ensures r < 0x1000 ==> (q * 0x1000 + r) / 0x1000 == q
    ensures r < 0x4_0000 ==> (q * 0x4_0000 + r) / 0x4_0000 == q
  {}

  /** Digits to the base 64 are read off one by one. */
  lemma Base64Digits(a: nat, b: nat, c: nat, d: nat)
    requires b < 0x40 && c < 0x40 && d < 0x40
    ensures var x := a * 0x4_0000 + b * 0x1000 + c * 0x40 + d;
      x / 0x4_0000 == a && x / 0x1000 == a * 0x40 + b && x / 0x1000 % 0x40 == b
      && x / 0x40 % 0x40 == c && x % 0x40 == d && x / 0x40 == a * 0x1000 + b * 0x40 + c
  {
    DivideBack(a, b * 0x1000 + c * 0x40 + d);
    DivideBack(a * 0x40 + b, c * 0x40 + d);
    DivideBack(a * 0x1000 + b * 0x40 + c, d);
    DivideBack(a, b);
    DivideBack(a * 0x40 + b, c);
  }

  lemma TwoBytes(s: Bytes) returns (cp: nat)
    requires s != [] && RuneLength(s) == 2
    ensures IsScalar(cp) && Encode(cp) == s[..2]
  {
    var c, d := s[0] as int - 0xC0, s[1] as int - 0x80;
    Base64Digits(0, 0, c, d);
    cp := c * 0x40 + d;
  }

  lemma ThreeBytes(s: Bytes) returns (cp: nat)
    requires s != [] && RuneLength(s) == 3
    ensures IsScalar(cp) && Encode(cp) == s[..3]
  {
    var b, c, d := s[0] as int - 0xE0, s[1] as int - 0x80, s[2] as int - 0x80;
    Base64Digits(0, b, c, d);
    cp := b * 0x1000 + c * 0x40 + d;
    assert 0x800 <= cp < 0x1_0000;
    assert Encode(cp) == [(0xE0 + b) as char, (0x80 + c) as char, (0x80 + d) as char];
  }

  lemma FourBytes(s: Bytes) returns (cp: nat)
    requires s != [] && RuneLength(s) == 4
    ensures IsScalar(cp) && Encode(cp) == s[..4]
  {
    var a, b, c, d := s[0] as int - 0xF0, s[1] as int - 0x80, s[2] as int - 0x80, s[3] as int - 0x80;
    Base64Digits(a, b, c, d);
    cp := a * 0x4_0000 + b * 0x1000 + c * 0x40 + d;
    assert 0x1_0000 <= cp < 0x11_0000;
    assert Encode(cp) == [(0xF0 + a) as char, (0x80 + b) as char, (0x80 + c) as char, (0x80 + d) as char];
  }

  lemma RuneEncodes(s: Bytes) returns (cp: nat)
    requires s != [] && RuneLength(s) > 0
    ensures IsScalar(cp) && Encode(cp) == s[..RuneLength(s)]
  {
    if RuneLength(s) == 1 {
      cp := s[0] as int;
    } else if RuneLength(s) == 2 {
      cp := TwoBytes(s);
    } else if RuneLength(s) == 3 {
      cp := ThreeBytes(s);
    } else {
      cp := FourBytes(s);
    }
  }

  lemma {:induction false} EncodedIsWell(cps: seq<nat>)
    requires forall i :: 0 <= i < |cps| ==> IsScalar(cps[i])
    ensures WellEncoded(EncodeAll(cps))
    decreases |cps|
  {
    if cps != [] {
      var rest := EncodeAll(cps[1..]);
      EncodedIsWell(cps[1..]);
      EncodeRune(cps[0], rest);
      assert (Encode(cps[0]) + rest)[|Encode(cps[0])|..] == rest;
    }
  }

  lemma {:induction false} WellIsEncoded(s: Bytes) returns (cps: seq<nat>)
    requires WellEncoded(s)
    ensures forall i :: 0 <= i < |cps| ==> IsScalar(cps[i])
    ensures EncodeAll(cps) == s
    decreases |s|
  {
    cps := [];
    if s != [] {
      var n := RuneLength(s);
      var cp: nat := RuneEncodes(s);
      var more := WellIsEncoded(s[n..]);
      cps := [cp] + more;
      assert cps[1..] == more && s == s[..n] + s[n..];
    }
  }

  /** A text is UTF-8 exactly when it spells some characters. */
  lemma WellEncodedExact(s: Bytes)
    ensures WellEncoded(s) <==> exists cps: seq<nat> :: Spells(cps, s)
  {
    if WellEncoded(s) {
      var cps := WellIsEncoded(s);
      assert Spells(cps, s);
    }
    forall cps: seq<nat> | Spells(cps, s) ensures WellEncoded(s) {
      EncodedIsWell(cps);
    }
  }

  ghost predicate Spells(cps: seq<nat>, s: Bytes) {
    (forall i :: 0 <= i < |cps| ==> IsScalar(cps[i])) && EncodeAll(cps) == s
  }

  predicate WellEncoded(s: Bytes) {
    s == [] || (RuneLength(s) > 0 && WellEncoded(s[RuneLength(s)..]))
  }

  /** What arrives of `s`. */
  function Carried(s: Bytes): Bytes {
    if s == [] then []
    else if RuneLength(s) == 0 then REPLACEMENT + Carried(s[1..])
    else s[..RuneLength(s)] + Carried(s[RuneLength(s)..])
  }

  /** A text arrives as it was if and only if it is UTF-8; otherwise it arrives longer. */
  lemma {:induction false} CarriedExact(s: Bytes)
    ensures Carried(s) == s <==> WellEncoded(s)
    ensures |Carried(s)| >= |s| && (|Carried(s)| == |s| <==> WellEncoded(s))
    decreases |s|
  {
    if s != [] {
      var n := RuneLength(s);
      if n == 0 {
        CarriedExact(s[1..]);
      } else {
        CarriedExact(s[n..]);
        assert s == s[..n] + s[n..];
        assert WellEncoded(s) ==> Carried(s) == s[..n] + s[n..];
      }
    }
  }

  function CarriedEach(parts: seq<Bytes>): (carried: seq<Bytes>)
    ensures |carried| == |parts|
  {
    seq(|parts|, i requires 0 <= i < |parts| => Carried(parts[i]))
  }

  /** Pieces put together on arrival are what they were before if and only if each one is UTF-8. */
  lemma {:induction false} CarriedInPieces(parts: seq<Bytes>)
    ensures var all := forall p :: p in parts ==> WellEncoded(p);
      && (Flatten(CarriedEach(parts)) == Flatten(parts) <==> all)
      && |Flatten(CarriedEach(parts))| >= |Flatten(parts)|
      && (|Flatten(CarriedEach(parts))| == |Flatten(parts)| <==> all)
  {
    if parts != [] {
      var init, last := parts[..|parts| - 1], parts[|parts| - 1];
      CarriedInPieces(init);
      CarriedExact(last);
      assert CarriedEach(parts)[..|parts| - 1] == CarriedEach(init);
      assert parts == init + [last];
    }
  }

  predicate IsAscii(s: Bytes) {
    forall i :: 0 <= i < |s| ==> s[i] as int < 0x80
  }

  lemma {:induction false} AsciiWellEncoded(s: Bytes)
    requires IsAscii(s)
    ensures WellEncoded(s)
  {
    if s != [] {
      AsciiWellEncoded(s[1..]);
      assert RuneLength(s) == 1;
    }
  }

  /** However ASCII output is cut into chunks, each of them is UTF-8. */
  lemma {:induction false} AsciiPieces(parts: seq<Bytes>)
    requires IsAscii(Flatten(parts))
    ensures forall p :: p in parts ==> WellEncoded(p)
  {
    if parts != [] {
      var init, last := parts[..|parts| - 1], parts[|parts| - 1];
      AsciiConcat(Flatten(init), last);
      AsciiPieces(init);
      AsciiWellEncoded(last);
      assert parts == init + [last];
    }
  }

  lemma AsciiConcat(a: Bytes, b: Bytes)
    requires IsAscii(a + b)
    ensures IsAscii(a) && IsAscii(b)
  {
    assert forall i :: 0 <= i < |a| ==> a[i] == (a + b)[i];
    assert forall i :: 0 <= i < |b| ==> b[i] == (a + b)[|a| + i];
  }

  /** A character cut in two by a chunk boundary arrives as two replacements. */
  lemma SplitCharacter()
    ensures var e: Bytes := [0xC3 as char, 0xA9 as char];
      && WellEncoded(e) && Carried(e) == e
      && Carried(e[..1]) + Carried(e[1..]) == REPLACEMENT + REPLACEMENT
  {
    var e: Bytes := [0xC3 as char, 0xA9 as char];
    assert RuneLength(e) == 2 && e[2..] == [];
    CarriedExact(e);
    assert RuneLength(e[..1]) == 0 && RuneLength(e[1..]) == 0;
    assert e[..1][1..] == [] && e[1..][1..] == [];
  }
}

/** The client's side of live output (client/remoteupdate.go): a chunker that several writers
    and a ticker race on, which numbers what it sends, stops after a cap, and keeps a tail for
    the run record. Each critical section is one atomic step. */
module LiveOutput {
  import opened Text
  import opened ByteStrings

  const UPDATE_OUTPUT_LIMIT: nat := 8 * 1024
  const OUTPUT_CHUNK_LIMIT: nat := 16 * 1024
  const OUTPUT_STREAM_LIMIT: nat := 2 * 1024 * 1024
  const MARKER: Bytes :=
    Ascii("\n[live output stopped here; the end of the run is shown when it finishes]\n")
  const TRUNCATED_HEADER: Bytes := Ascii("[earlier output truncated]\n")

  datatype Chunk = Chunk(text: Bytes, seqNo: nat)

  /** The streamer's fields, with two histories beside them: every byte written, and the output
      each published chunk carries. */
  datatype Stream = Stream(pending: Bytes, seqNo: nat, streamed: nat, capped: bool,
                           published: seq<Chunk>, written: Bytes, bodies: seq<Bytes>)

  const EMPTY := Stream([], 0, 0, false, [], [], [])

  /** The locked part of a write. */
  function Append(s: Stream, p: Bytes): Stream {
    s.(pending := if s.capped then s.pending else s.pending + p, written := s.written + p)
  }

  /** One flush, under the lock for the publish too. */
  function Flush(s: Stream): Stream {
    if s.pending == [] then s
    else
      var total := s.streamed + |s.pending|;
      var capping := total >= OUTPUT_STREAM_LIMIT && !s.capped;
      var text := if capping then s.pending + MARKER else s.pending;
      s.(pending := [], seqNo := s.seqNo + 1, streamed := total, capped := s.capped || capping,
         published := s.published + [Chunk(text, s.seqNo + 1)], bodies := s.bodies + [s.pending])
  }

  /** Chunks are numbered 1, 2, 3, ...; chunk `i` carries `bodies[i]`, with the marker after it
      on the last one of a capped stream and nowhere else; the bodies in order are a prefix of
      what was written, and until the cap nothing is missing but what is still pending. */
  ghost predicate Faithful(s: Stream) {
    && s.seqNo == |s.published| == |s.bodies|
    && (forall i :: 0 <= i < s.seqNo ==>
          && s.published[i].seqNo == i + 1 && s.bodies[i] != []
          && s.published[i].text == s.bodies[i] + if s.capped && i == s.seqNo - 1 then MARKER else [])
    && (if s.capped then s.pending == [] && Flatten(s.bodies) <= s.written
        else Flatten(s.bodies) + s.pending == s.written)
    && s.streamed == |Flatten(s.bodies)|
    && (s.capped <==> s.streamed >= OUTPUT_STREAM_LIMIT)
    && (s.capped ==> s.seqNo > 0 && s.streamed - |s.bodies[s.seqNo - 1]| < OUTPUT_STREAM_LIMIT)
  }

  lemma AppendFaithful(s: Stream, p: Bytes)
    requires Faithful(s)
    ensures Faithful(Append(s, p))
  {}

  lemma FlushFaithful(s: Stream)
    requires Faithful(s)
    ensures Faithful(Flush(s))
    ensures Flush(s).pending == []
  {
    if s.pending != [] {
      var t := Flush(s);
      assert t.bodies[..|t.bodies| - 1] == s.bodies;
      assert Flatten(t.bodies) == Flatten(s.bodies) + s.pending;
    }
  }

  // ---------- writers and the ticker ----------

  /** A writer that filled the buffer owes a flush and writes nothing more until it has made it. */
  datatype System = System(stream: Stream, owing: set<nat>)

  datatype Event =
    | Write(writer: nat, p: Bytes)
    | WriterFlush(writer: nat)
    | TickFlush

  ghost predicate Enabled(sys: System, e: Event) {
    match e
    case Write(w, _) => w !in sys.owing
    case WriterFlush(w) => w in sys.owing
    case TickFlush => true
  }

  ghost function Step(sys: System, e: Event): System {
    if !Enabled(sys, e) then sys
    else match e
      case Write(w, p) =>
        var s := Append(sys.stream, p);
        System(s, if |s.pending| >= OUTPUT_CHUNK_LIMIT then sys.owing + {w} else sys.owing)
      case WriterFlush(w) => System(Flush(sys.stream), sys.owing - {w})
      case TickFlush => System(Flush(sys.stream), sys.owing)
  }

  ghost function Run(events: seq<Event>): System {
    if events == [] then System(EMPTY, {})
    else Step(Run(events[..|events| - 1]), events[|events| - 1])
  }

  /** Whatever order writes and flushes happen in, the stream stays faithful. */
  lemma {:induction false} RunFaithful(events: seq<Event>)
    ensures Faithful(Run(events).stream)
  {
    if events == [] {
    } else {
      var init, e := events[..|events| - 1], events[|events| - 1];
      RunFaithful(init);
      FlushFaithful(Run(init).stream);
      if e.Write? {
        AppendFaithful(Run(init).stream, e.p);
      }
    }
  }

  /** What the writers wrote, in the order in which they got the lock. */
  ghost function AllWrites(events: seq<Event>): Bytes {
    if events == [] then []
    else
      var init, e := events[..|events| - 1], events[|events| - 1];
      AllWrites(init) + if e.Write? && e.writer !in Run(init).owing then e.p else []
  }

  lemma {:induction false} NothingDropped(events: seq<Event>)
    ensures Run(events).stream.written == AllWrites(events)
    ensures Flush(Run(events).stream).written == AllWrites(events)
  {
    if events != [] {
      NothingDropped(events[..|events| - 1]);
    }
  }

  /** After the final flush of a run that never reached the cap, the chunks are the whole output. */
  lemma ClosedStream(events: seq<Event>)
    ensures var s := Flush(Run(events).stream);
      && Faithful(s)
      && (!s.capped ==> Flatten(s.bodies) == s.written)
      && (!s.capped ==> forall i :: 0 <= i < s.seqNo ==> s.published[i].text == s.bodies[i])
      && (s.capped ==> Flatten(s.bodies) <= s.written && |Flatten(s.bodies)| >= OUTPUT_STREAM_LIMIT)
  {
    RunFaithful(events);
    FlushFaithful(Run(events).stream);
  }

  // ---------- sizes ----------

  /** Only `writers` write, and no call carries more than `m` bytes. */
  ghost predicate Bounded(events: seq<Event>, writers: set<nat>, m: nat) {
    forall e :: e in events && e.Write? ==> e.writer in writers && |e.p| <= m
  }

  ghost predicate Small(sys: System, writers: set<nat>, m: nat) {
    && sys.owing <= writers
    && |sys.stream.pending| <= OUTPUT_CHUNK_LIMIT - 1 + |sys.owing| * m
    && (forall i :: 0 <= i < |sys.stream.bodies| ==>
          |sys.stream.bodies[i]| <= OUTPUT_CHUNK_LIMIT - 1 + |writers| * m)
  }

  lemma StepSmall(sys: System, e: Event, writers: set<nat>, m: nat)
    requires Small(sys, writers, m)
    requires e.Write? ==> e.writer in writers && |e.p| <= m
    ensures Small(Step(sys, e), writers, m)
  {
    SubsetSize(sys.owing, writers);
    assert |sys.owing| * m <= |writers| * m by { Times(|sys.owing|, |writers|, m); }
    if Enabled(sys, e) {
      match e
      case Write(w, p) =>
        var full := |Append(sys.stream, p).pending| >= OUTPUT_CHUNK_LIMIT;
        if full {
          assert |sys.owing + {w}| * m == |sys.owing| * m + m;
        } else {
          Times(0, |sys.owing|, m);
        }
      case WriterFlush(w) =>
        Times(0, |sys.owing - {w}|, m);
      case TickFlush =>
        Times(0, |sys.owing|, m);
    }
  }

  lemma Times(a: nat, b: nat, m: nat)
    requires a <= b
    ensures a * m <= b * m
  {}

  lemma SubsetSize(a: set<nat>, b: set<nat>)
    requires a <= b
    ensures |a| <= |b|
  {
    if a != {} {
      var x :| x in a;
      SubsetSize(a - {x}, b - {x});
    }
  }

  lemma {:induction false} RunSmall(events: seq<Event>, writers: set<nat>, m: nat)
    requires Bounded(events, writers, m)
    ensures Small(Run(events), writers, m)
  {
    if events == [] {
    } else {
      var init := events[..|events| - 1];
      RunSmall(init, writers, m);
      StepSmall(Run(init), events[|events| - 1], writers, m);
    }
  }

  /** With `|writers|` concurrent writers of at most `m` bytes a call, no chunk is longer than the
      chunk limit less one plus what every writer can add before its flush (and the marker), and
      a run streams less than the stream limit plus one such chunk. */
  lemma StreamSizes(events: seq<Event>, writers: set<nat>, m: nat)
    requires Bounded(events, writers, m)
    ensures var s := Run(events).stream; var most := OUTPUT_CHUNK_LIMIT - 1 + |writers| * m;
      && (forall i :: 0 <= i < |s.published| ==>
            |s.published[i].text| <= most + if s.capped && i == |s.published| - 1 then |MARKER| else 0)
      && s.streamed < OUTPUT_STREAM_LIMIT + most
  {
    RunFaithful(events);
    RunSmall(events, writers, m);
    Times(0, |writers|, m);
  }

  // ---------- the objects ----------

  /** The record of a run's output: all of it, or a header and its last 8 KB. */
  ghost predicate IsRecord(output: Bytes, written: Bytes) {
    && (|written| <= 8192 ==> output == written)
    && (|written| > 8192 ==> output == TRUNCATED_HEADER + written[|written| - 8192..])
  }

  /** The record without the header. */
  function WithoutHeader(output: Bytes, written: Bytes): Bytes {
    if |written| > 8192 && TRUNCATED_HEADER <= output then output[|TRUNCATED_HEADER|..] else output
  }

  class TailWriter {
    const limit: nat
    var buf: Bytes
    var truncated: bool
    ghost var written: Bytes

    ghost predicate Valid()
      reads this
    {
      && buf == Last(written, limit)
      && (truncated <==> |written| > limit)
    }

    constructor (limit: nat)
      ensures Valid() && written == [] && this.limit == limit
    {
      this.limit := limit;
      buf, truncated, written := [], false, [];
    }

    method Write(p: Bytes)
      requires Valid()
      modifies this
      ensures Valid() && written == old(written) + p
    {
      LastAppend(written, p, limit);
      buf := buf + p;
      if |buf| > limit {
        truncated := true;
        buf := buf[|buf| - limit..];
      }
      written := written + p;
    }

    method String() returns (s: Bytes)
      requires Valid() && limit == UPDATE_OUTPUT_LIMIT
      ensures |written| <= 8192 ==> s == written
      ensures |written| > 8192 ==> s == TRUNCATED_HEADER + written[|written| - 8192..]
    {
      if truncated {
        return TRUNCATED_HEADER + buf;
      }
      return buf;
    }
  }

  class OutputStreamer {
    const tail: TailWriter
    var pending: Bytes
    var seqNo: nat
    var streamed: nat
    var capped: bool
    /** What the publish callback has been handed. */
    var published: seq<Chunk>
    ghost var bodies: seq<Bytes>

    ghost function View(): Stream
      reads this, tail
    {
      Stream(pending, seqNo, streamed, capped, published, tail.written, bodies)
    }

    ghost predicate Valid()
      reads this, tail
    {
      tail.Valid() && tail.limit == UPDATE_OUTPUT_LIMIT && Faithful(View())
    }

    constructor ()
      ensures Valid() && fresh(tail) && View() == EMPTY
    {
      tail := new TailWriter(UPDATE_OUTPUT_LIMIT);
      pending, seqNo, streamed, capped, published, bodies := [], 0, 0, false, [], [];
    }

    /** The critical section of a write; the caller flushes when it filled the buffer. */
    method AppendLocked(p: Bytes) returns (full: bool)
      requires Valid()
      modifies this, tail
      ensures Valid() && View() == Append(old(View()), p)
      ensures tail.written == old(tail.written) + p
      ensures full <==> |pending| >= OUTPUT_CHUNK_LIMIT
    {
      AppendFaithful(View(), p);
      tail.Write(p);
      if !capped {
        pending := pending + p;
      }
      full := |pending| >= OUTPUT_CHUNK_LIMIT;
    }

    method FlushLocked()
      requires Valid()
      modifies this
      ensures Valid() && View() == Flush(old(View()))
    {
      FlushFaithful(View());
      if |pending| == 0 {
        return;
      }
      bodies := bodies + [pending];
      var chunk := pending;
      pending := [];
      streamed := streamed + |chunk|;
      if streamed >= OUTPUT_STREAM_LIMIT && !capped {
        capped := true;
        chunk := chunk + MARKER;
      }
      seqNo := seqNo + 1;
      published := published + [Chunk(chunk, seqNo)];
    }

    /** A write that no other step comes between. */
    method WriteOutput(p: Bytes)
      requires Valid()
      modifies this, tail
      ensures Valid() && |pending| < OUTPUT_CHUNK_LIMIT
      ensures tail.written == old(tail.written) + p && old(published) <= published
    {
      var full := AppendLocked(p);
      if full {
        FlushLocked();
      }
    }

    /** Sends the remainder and returns the tail for the run record. */
    method Close() returns (output: Bytes)
      requires Valid()
      modifies this
      ensures Valid() && View() == Flush(old(View()))
      ensures tail.written == old(tail.written) && IsRecord(output, tail.written)
      ensures !capped ==> Flatten(bodies) == tail.written
    {
      FlushLocked();
      assert Flatten(bodies) + [] == Flatten(bodies);
      output := tail.String();
    }
  }
}

/** The server's side (server/runlog/runlog.go): a bounded buffer per host for the run in flight. */
module RunLog {
  import opened Options
  import opened Text
  import opened ByteStrings
  import opened JsonText
  import LiveOutput

  const BUFFER_LIMIT: nat := 64 * 1024
  const EVENT_BUFFER: nat := 256

  /** One chunk as it arrives, and as it goes out to the dashboard. */
  datatype Arrival = Arrival(hostname: string, id: string, seqNo: int, chunk: Bytes)

  datatype RunView = RunView(id: string, seqNo: int, output: Bytes, truncated: bool)

  // ---------- what a viewer should see ----------

  function ForHost(history: seq<Arrival>, h: string): seq<Arrival> {
    if history == [] then []
    else
      var init, a := ForHost(history[..|history| - 1], h), history[|history| - 1];
      if a.hostname == h then init + [a] else init
  }

  /** Where the chunks at the end of a host's history begin that carry one run id, the last. */
  function BlockStart(arrivals: seq<Arrival>): (k: nat)
    ensures arrivals == [] ==> k == 0
    ensures arrivals != [] ==> k < |arrivals|
    ensures forall i :: k <= i < |arrivals| ==> arrivals[i].id == arrivals[|arrivals| - 1].id
    ensures k > 0 ==> arrivals[k - 1].id != arrivals[|arrivals| - 1].id
  {
    var n := |arrivals|;
    if n <= 1 then 0
    else if arrivals[n - 2].id == arrivals[n - 1].id then BlockStart(arrivals[..n - 1])
    else n - 1
  }

  /** Those chunks, built up from the end. */
  function TrailingBlock(arrivals: seq<Arrival>): seq<Arrival> {
    var n := |arrivals|;
    if n <= 1 then arrivals
    else if arrivals[n - 2].id == arrivals[n - 1].id then TrailingBlock(arrivals[..n - 1]) + [arrivals[n - 1]]
    else [arrivals[n - 1]]
  }

  lemma {:induction false} TrailingBlockIsMaximal(arrivals: seq<Arrival>)
    ensures TrailingBlock(arrivals) == arrivals[BlockStart(arrivals)..]
  {
    var n := |arrivals|;
    if n > 1 && arrivals[n - 2].id == arrivals[n - 1].id {
      TrailingBlockIsMaximal(arrivals[..n - 1]);
      SliceAppend(arrivals, BlockStart(arrivals));
    }
  }

  lemma SliceAppend(arrivals: seq<Arrival>, k: nat)
    requires k < |arrivals|
    ensures arrivals[..|arrivals| - 1][k..] + [arrivals[|arrivals| - 1]] == arrivals[k..]
  {}

  function Chunks(arrivals: seq<Arrival>): seq<Bytes> {
    seq(|arrivals|, i requires 0 <= i < |arrivals| => arrivals[i].chunk)
  }

  /** What a block of chunks from one run amounts to: all its output cut to the last 64 KB, and
      whether it was cut. */
  function Summary(block: seq<Arrival>): Option<RunView> {
    if block == [] then None
    else
      var last, output := block[|block| - 1], Flatten(Chunks(block));
      Some(RunView(last.id, last.seqNo, Last(output, BUFFER_LIMIT), |output| > BUFFER_LIMIT))
  }

  function Expected(history: seq<Arrival>, h: string): Option<RunView> {
    Summary(TrailingBlock(ForHost(history, h)))
  }

  lemma BlockLast(arrivals: seq<Arrival>)
    requires arrivals != []
    ensures var b := TrailingBlock(arrivals); b != [] && b[|b| - 1] == arrivals[|arrivals| - 1]
  {}

  lemma BlockStep(arrivals: seq<Arrival>, a: Arrival)
    ensures TrailingBlock(arrivals + [a]) ==
      if arrivals != [] && arrivals[|arrivals| - 1].id == a.id then TrailingBlock(arrivals) + [a] else [a]
  {
    var grown, n := arrivals + [a], |arrivals|;
    assert grown[n] == a && grown[..n] == arrivals;
    if n > 0 {
      assert grown[n - 1] == arrivals[n - 1];
    }
  }

  lemma SummaryStep(block: seq<Arrival>, a: Arrival)
    requires block != []
    ensures var before := Summary(block).value;
      Summary(block + [a]) ==
      Some(RunView(a.id, a.seqNo, Last(before.output + a.chunk, BUFFER_LIMIT),
                   before.truncated || |before.output + a.chunk| > BUFFER_LIMIT))
  {
    var cs := Chunks(block + [a]);
    assert cs[..|cs| - 1] == Chunks(block);
    LastAppend(Flatten(Chunks(block)), a.chunk, BUFFER_LIMIT);
  }

  /** How one more chunk from `a.hostname` changes what its viewer should see. */
  lemma ExpectedStep(history: seq<Arrival>, a: Arrival)
    ensures var before, after := Expected(history, a.hostname), Expected(history + [a], a.hostname);
      after ==
      if before.Some? && before.value.id == a.id then
        Some(RunView(a.id, a.seqNo, Last(before.value.output + a.chunk, BUFFER_LIMIT),
                     before.value.truncated || |before.value.output + a.chunk| > BUFFER_LIMIT))
      else Some(RunView(a.id, a.seqNo, Last(a.chunk, BUFFER_LIMIT), |a.chunk| > BUFFER_LIMIT))
  {
    assert (history + [a])[..|history|] == history;
    var mine := ForHost(history, a.hostname);
    BlockStep(mine, a);
    OneChunk(a);
    if mine != [] {
      BlockLast(mine);
      SummaryStep(TrailingBlock(mine), a);
    }
  }

  lemma OneChunk(a: Arrival)
    ensures Flatten(Chunks([a])) == a.chunk
  {
    assert Chunks([a]) == [a.chunk] && [a.chunk][..0] == [];
    assert Flatten([a.chunk]) == Flatten([]) + a.chunk;
  }

  lemma ExpectedOthers(history: seq<Arrival>, a: Arrival, h: string)
    requires h != a.hostname
    ensures Expected(history + [a], h) == Expected(history, h)
  {
    assert (history + [a])[..|history|] == history;
  }

  // ---------- the store ----------

  datatype Buffer = Buffer(id: string, seqNo: int, data: Bytes, truncated: bool)

  function Held(runs: map<string, Buffer>, h: string): Option<RunView> {
    if h in runs then Some(RunView(runs[h].id, runs[h].seqNo, runs[h].data, runs[h].truncated)) else None
  }

  /** Every host's buffer shows what its history calls for. */
  ghost predicate Tracks(runs: map<string, Buffer>, history: seq<Arrival>) {
    forall h :: Held(runs, h) == Expected(history, h)
  }

  ghost predicate IsGrown(buffer: Buffer, seqNo: int, chunk: Bytes, buf: Buffer) {
    && buf.id == buffer.id && buf.seqNo == seqNo
    && buf.data == Last(buffer.data + chunk, BUFFER_LIMIT)
    && (buf.truncated <==> buffer.truncated || |buffer.data + chunk| > BUFFER_LIMIT)
  }

  lemma TracksStep(runs: map<string, Buffer>, history: seq<Arrival>, a: Arrival, buf: Buffer)
    requires Tracks(runs, history)
    requires IsGrown(if a.hostname in runs && runs[a.hostname].id == a.id then runs[a.hostname]
                     else Buffer(a.id, 0, [], false), a.seqNo, a.chunk, buf)
    ensures Tracks(runs[a.hostname := buf], history + [a])
  {
    var after := runs[a.hostname := buf];
    assert Held(runs, a.hostname) == Expected(history, a.hostname);
    ExpectedStep(history, a);
    assert [] + a.chunk == a.chunk;
    forall h ensures Held(after, h) == Expected(history + [a], h) {
      if h != a.hostname {
        assert Held(runs, h) == Expected(history, h);
        ExpectedOthers(history, a, h);
      }
    }
  }

  class Store {
    var runs: map<string, Buffer>
    /** The channel feeding the broadcast. */
    var events: seq<Arrival>
    ghost var history: seq<Arrival>

    ghost predicate Valid()
      reads this
    {
      Tracks(runs, history) && |events| <= EVENT_BUFFER
    }

    constructor ()
      ensures Valid() && history == []
    {
      runs, events, history := map[], [], [];
    }

    method Append(hostname: string, id: string, seqNo: int, chunk: Bytes)
      requires Valid()
      modifies this
      ensures Valid()
      ensures history == old(history) + [Arrival(hostname, id, seqNo, chunk)]
      ensures events == if |old(events)| < EVENT_BUFFER then old(events) + [Arrival(hostname, id, seqNo, chunk)]
                        else old(events)
    {
      var a := Arrival(hostname, id, seqNo, chunk);
      var buf := if hostname in runs && runs[hostname].id == id then runs[hostname] else Buffer(id, 0, [], false);
      buf := Grown(buf, seqNo, chunk);
      TracksStep(runs, history, a, buf);
      runs := runs[hostname := buf];
      history := history + [a];
      if |events| < EVENT_BUFFER {
        events := events + [a];
      }
    }

    static method Grown(buffer: Buffer, seqNo: int, chunk: Bytes) returns (buf: Buffer)
      ensures IsGrown(buffer, seqNo, chunk, buf)
    {
      buf := buffer.(seqNo := seqNo, data := buffer.data + chunk);
      if |buf.data| > BUFFER_LIMIT {
        buf := buf.(truncated := true, data := buf.data[|buf.data| - BUFFER_LIMIT..]);
      }
    }

    method Snapshot(hostname: string) returns (s: Option<RunView>)
      requires Valid()
      ensures s == Expected(history, hostname)
    {
      assert Held(runs, hostname) == Expected(history, hostname);
      if hostname !in runs {
        return None;
      }
      var buf := runs[hostname];
      return Some(RunView(buf.id, buf.seqNo, buf.data, buf.truncated));
    }
  }

  // ---------- end to end ----------

  /** A run's chunks as they arrive when none is lost and none overtakes another. */
  function Delivered(chunks: seq<LiveOutput.Chunk>, h: string, id: string): seq<Arrival> {
    seq(|chunks|, i requires 0 <= i < |chunks| => Arrival(h, id, chunks[i].seqNo, Carried(chunks[i].text)))
  }

  lemma {:induction false} BlockOfOneRun(prior: seq<Arrival>, run: seq<Arrival>, id: string)
    requires run != [] && forall i :: 0 <= i < |run| ==> run[i].id == id
    ensures TrailingBlock(prior + run) == Continued(prior, id) + run
  {
    var n := |run| - 1;
    SplitLast(prior, run);
    SplitLast(Continued(prior, id), run);
    BlockStep(prior + run[..n], run[n]);
    if n == 0 {
      assert run[..n] == [];
      assert prior + [] == prior && Continued(prior, id) + [] == Continued(prior, id);
    } else {
      BlockOfOneRun(prior, run[..n], id);
      LastOfConcat(prior, run[..n]);
    }
  }

  lemma SplitLast(a: seq<Arrival>, b: seq<Arrival>)
    requires b != []
    ensures a + b == (a + b[..|b| - 1]) + [b[|b| - 1]]
  {}

  lemma LastOfConcat(a: seq<Arrival>, b: seq<Arrival>)
    requires b != []
    ensures a + b != [] && (a + b)[|a + b| - 1] == b[|b| - 1]
  {}

  /** The chunks before a run that a viewer cannot tell from it, because they carry its id. */
  function Continued(prior: seq<Arrival>, id: string): seq<Arrival> {
    if prior != [] && prior[|prior| - 1].id == id then TrailingBlock(prior) else []
  }

  /** What a viewer sees after a whole run: its output after whatever it continues. */
  lemma SummaryOfRun(prior: seq<Arrival>, run: seq<Arrival>, id: string)
    requires run != [] && forall i :: 0 <= i < |run| ==> run[i].id == id
    ensures var all := Flatten(Chunks(Continued(prior, id))) + Flatten(Chunks(run));
      Summary(TrailingBlock(prior + run)) ==
      Some(RunView(id, run[|run| - 1].seqNo, Last(all, BUFFER_LIMIT), |all| > BUFFER_LIMIT))
  {
    BlockOfOneRun(prior, run, id);
    SummaryOfTwo(Continued(prior, id), run);
  }

  lemma SummaryOfTwo(before: seq<Arrival>, run: seq<Arrival>)
    requires run != []
    ensures var all := Flatten(Chunks(before)) + Flatten(Chunks(run)); var last := run[|run| - 1];
      Summary(before + run) == Some(RunView(last.id, last.seqNo, Last(all, BUFFER_LIMIT), |all| > BUFFER_LIMIT))
  {
    var both := before + run;
    assert Chunks(both) == Chunks(before) + Chunks(run);
    FlattenConcat(Chunks(before), Chunks(run));
    assert both[|both| - 1] == run[|run| - 1];
  }

  /** From the command's pipe to the dashboard: when a run that never reached the cap has closed
      and its chunks have all arrived in order on its host, whatever other hosts sent meanwhile, a
      viewer of a fresh run sees exactly the last 64 KB of its chunks as JSON carried them. */
  lemma PipelineDelivers(events: seq<LiveOutput.Event>, history: seq<Arrival>, prior: seq<Arrival>,
                         h: string, id: string)
    requires var s := LiveOutput.Flush(LiveOutput.Run(events).stream);
      && !s.capped && s.written != []
      && ForHost(history, h) == prior + Delivered(s.published, h, id)
    ensures var s := LiveOutput.Flush(LiveOutput.Run(events).stream); var seen := Expected(history, h);
      var earlier := Flatten(Chunks(Continued(prior, id))); var carried := Flatten(CarriedEach(s.bodies));
      && Flatten(s.bodies) == s.written
      && seen == Some(RunView(id, s.seqNo, Last(earlier + carried, BUFFER_LIMIT), |earlier + carried| > BUFFER_LIMIT))
  {
    var s := LiveOutput.Flush(LiveOutput.Run(events).stream);
    LiveOutput.ClosedStream(events);
    var run := Delivered(s.published, h, id);
    assert Chunks(run) == CarriedEach(s.bodies);
    assert s.bodies != [];
    SummaryOfRun(prior, run, id);
  }

  /** So when every chunk is UTF-8, as every chunk of an ASCII run is, the `output` that closing
      the stream returns for the record, less its header, is a suffix of what a viewer sees, and a
      viewer of a fresh run sees exactly the last 64 KB of everything the command wrote. Of a fresh
      run that fits the buffer he sees just what was written only then. */
  lemma PipelineEndToEnd(events: seq<LiveOutput.Event>, history: seq<Arrival>, prior: seq<Arrival>,
                         h: string, id: string, output: Bytes)
    requires var s := LiveOutput.Flush(LiveOutput.Run(events).stream);
      && !s.capped && s.written != []
      && ForHost(history, h) == prior + Delivered(s.published, h, id)
      && LiveOutput.IsRecord(output, s.written)
    ensures var s := LiveOutput.Flush(LiveOutput.Run(events).stream); var seen := Expected(history, h);
      var whole := forall p :: p in s.bodies ==> WellEncoded(p);
      var first := prior == [] || prior[|prior| - 1].id != id;
      && seen.Some? && seen.value.id == id && seen.value.seqNo == s.seqNo
      && (whole ==> IsSuffix(LiveOutput.WithoutHeader(output, s.written), seen.value.output))
      && (whole && first ==>
            && seen.value.output == Last(s.written, BUFFER_LIMIT)
            && (seen.value.truncated <==> |s.written| > BUFFER_LIMIT))
      && (first && !seen.value.truncated ==> (seen.value.output == s.written <==> whole))
      && (IsAscii(s.written) ==> whole)
  {
    var s := LiveOutput.Flush(LiveOutput.Run(events).stream);
    PipelineDelivers(events, history, prior, h, id);
    SeenOutput(Flatten(Chunks(Continued(prior, id))), s.bodies);
    RecordTail(output, s.written);
  }

  lemma RecordTail(output: Bytes, written: Bytes)
    requires LiveOutput.IsRecord(output, written)
    ensures LiveOutput.WithoutHeader(output, written) == Last(written, LiveOutput.UPDATE_OUTPUT_LIMIT)
  {}

  /** What becomes of a run's chunks behind what came earlier under its id. */
  lemma SeenOutput(earlier: Bytes, bodies: seq<Bytes>)
    ensures var written, carried := Flatten(bodies), Flatten(CarriedEach(bodies));
      var whole := forall p :: p in bodies ==> WellEncoded(p);
      && (IsAscii(written) ==> whole)
      && (whole ==> carried == written)
      && (whole ==> IsSuffix(Last(written, LiveOutput.UPDATE_OUTPUT_LIMIT), Last(earlier + carried, BUFFER_LIMIT)))
      && (earlier == [] ==> earlier + carried == carried)
      && (|carried| <= BUFFER_LIMIT ==> (Last(carried, BUFFER_LIMIT) == written <==> whole))
  {
    CarriedInPieces(bodies);
    if IsAscii(Flatten(bodies)) {
      AsciiPieces(bodies);
    }
    SuffixOfLast(earlier, Flatten(CarriedEach(bodies)), LiveOutput.UPDATE_OUTPUT_LIMIT, BUFFER_LIMIT);
  }

  lemma SuffixOfLast(earlier: Bytes, s: Bytes, m: nat, n: nat)
    requires m <= n
    ensures IsSuffix(Last(s, m), Last(earlier + s, n))
  {}
}
