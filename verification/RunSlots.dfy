/** One job at a time: the slot that a client's update runner and its reboot listener each guard
    with a mutex. A job is accepted, works through its steps on its own goroutine, and frees the
    slot with the last of them. */
module RunSlots {
  /** A step some job has taken: 0 is its acceptance. */
  datatype Mark = Mark(id: string, step: nat)

  /** A goroutine, and how many of its job's steps it has taken. */
  datatype Job = Job(id: string, taken: nat)

  datatype Slot = Slot(busy: bool, live: map<nat, Job>, next: nat, trace: seq<Mark>)

  const FREE := Slot(false, map[], 0, [])

  function Claim(s: Slot, id: string): Slot {
    if s.busy then s
    else Slot(true, s.live[s.next := Job(id, 1)], s.next + 1, s.trace + [Mark(id, 0)])
  }

  /** Goroutine `g` takes its next step of `steps`; the last one frees the slot and ends it. */
  function Advance(s: Slot, g: nat, steps: nat): Slot {
    if g !in s.live then s
    else
      var job := s.live[g];
      var trace := s.trace + [Mark(job.id, job.taken)];
      if job.taken == steps - 1 then Slot(false, s.live - {g}, s.next, trace)
      else Slot(s.busy, s.live[g := Job(job.id, job.taken + 1)], s.next, trace)
  }

  /** The step after a trace: a new job's first, or the next of the job under way. */
  function NextStep(trace: seq<Mark>, steps: nat): nat {
    if trace == [] || trace[|trace| - 1].step == steps - 1 then 0 else trace[|trace| - 1].step + 1
  }

  ghost predicate Follows(trace: seq<Mark>, k: nat, steps: nat)
    requires k < |trace|
  {
    if k == 0 || trace[k - 1].step == steps - 1 then trace[k].step == 0
    else trace[k].step == trace[k - 1].step + 1 < steps && trace[k].id == trace[k - 1].id
  }

  /** The trace spells whole jobs one after another, each with all its steps in order under one
      id, and then perhaps the start of one more. */
  ghost predicate Spelled(trace: seq<Mark>, steps: nat) {
    forall k :: 0 <= k < |trace| ==> Follows(trace, k, steps)
  }

  lemma SpelledAppend(trace: seq<Mark>, m: Mark, steps: nat)
    requires Spelled(trace, steps) && m.step == NextStep(trace, steps)
    requires m.step != 0 ==> m.step < steps && m.id == trace[|trace| - 1].id
    ensures Spelled(trace + [m], steps)
  {
    var grown := trace + [m];
    forall k | 0 <= k < |grown| ensures Follows(grown, k, steps) {
      assert k < |trace| ==> Follows(trace, k, steps);
    }
  }

  lemma SpelledLast(trace: seq<Mark>, steps: nat)
    requires Spelled(trace, steps) && trace != []
    ensures var init, last := trace[..|trace| - 1], trace[|trace| - 1];
      && Spelled(init, steps) && last.step == NextStep(init, steps)
      && (last.step != 0 ==> last.step < steps && init != [] && last.id == init[|init| - 1].id)
  {
    var init := trace[..|trace| - 1];
    assert Follows(trace, |trace| - 1, steps);
    forall k | 0 <= k < |init| ensures Follows(init, k, steps) {
      assert Follows(trace, k, steps);
    }
  }

  /** The slot is busy exactly while a job in the trace is unfinished, and that job's goroutine is
      the only one there is. */
  ghost predicate OneAtATime(s: Slot, steps: nat) {
    var next := NextStep(s.trace, steps);
    && Spelled(s.trace, steps) && next < steps
    && (s.busy <==> next != 0)
    && (forall g :: g in s.live ==> g < s.next)
    && (if s.busy then exists g :: g in s.live && s.live == map[g := Job(s.trace[|s.trace| - 1].id, next)]
        else s.live == map[])
  }

  lemma ClaimKeeps(s: Slot, id: string, steps: nat)
    requires steps > 1 && OneAtATime(s, steps)
    ensures OneAtATime(Claim(s, id), steps)
  {
    var t := Claim(s, id);
    if !s.busy {
      SpelledAppend(s.trace, Mark(id, 0), steps);
      assert s.next in t.live && t.live == map[s.next := Job(id, 1)];
    }
  }

  lemma AdvanceKeeps(s: Slot, g: nat, steps: nat)
    requires steps > 1 && OneAtATime(s, steps)
    ensures OneAtATime(Advance(s, g, steps), steps)
  {
    if g in s.live {
      var next, t := NextStep(s.trace, steps), Advance(s, g, steps);
      var h :| h in s.live && s.live == map[h := Job(s.trace[|s.trace| - 1].id, next)];
      assert h == g;
      SpelledAppend(s.trace, Mark(s.live[g].id, next), steps);
      if next == steps - 1 {
        assert t.live == map[];
      } else {
        assert g in t.live && t.live == map[g := Job(s.live[g].id, next + 1)];
      }
    }
  }

  // ---------- every interleaving ----------

  datatype Event = Request(id: string) | Go(g: nat)

  function Step(s: Slot, e: Event, steps: nat): Slot {
    match e
    case Request(id) => Claim(s, id)
    case Go(g) => Advance(s, g, steps)
  }

  function Run(events: seq<Event>, steps: nat): Slot {
    if events == [] then FREE else Step(Run(events[..|events| - 1], steps), events[|events| - 1], steps)
  }

  lemma {:induction false} RunOneAtATime(events: seq<Event>, steps: nat)
    requires steps > 1
    ensures OneAtATime(Run(events, steps), steps)
  {
    if events == [] {
    } else {
      var init, e := events[..|events| - 1], events[|events| - 1];
      RunOneAtATime(init, steps);
      match e
      case Request(id) => ClaimKeeps(Run(init, steps), id, steps);
      case Go(g) => AdvanceKeeps(Run(init, steps), g, steps);
    }
  }

  function MarksAt(trace: seq<Mark>, step: nat): nat {
    if trace == [] then 0
    else MarksAt(trace[..|trace| - 1], step) + if trace[|trace| - 1].step == step then 1 else 0
  }

  lemma {:induction false} CountMarks(trace: seq<Mark>, steps: nat)
    requires steps > 1 && Spelled(trace, steps)
    ensures MarksAt(trace, 0) == MarksAt(trace, steps - 1) + if NextStep(trace, steps) != 0 then 1 else 0
  {
    if trace != [] {
      SpelledLast(trace, steps);
      CountMarks(trace[..|trace| - 1], steps);
    }
  }

  /** Jobs accepted are jobs ended and, while the slot is busy, the one under way; and at most one
      goroutine is ever live. */
  lemma AcceptedIsEndedPlusActive(events: seq<Event>, steps: nat)
    requires steps > 1
    ensures var s := Run(events, steps);
      && MarksAt(s.trace, 0) == MarksAt(s.trace, steps - 1) + (if s.busy then 1 else 0)
      && |s.live| == if s.busy then 1 else 0
  {
    RunOneAtATime(events, steps);
    SlotCounts(Run(events, steps), steps);
  }

  lemma SlotCounts(s: Slot, steps: nat)
    requires steps > 1 && OneAtATime(s, steps)
    ensures MarksAt(s.trace, 0) == MarksAt(s.trace, steps - 1) + (if s.busy then 1 else 0)
    ensures |s.live| == if s.busy then 1 else 0
  {
    CountMarks(s.trace, steps);
    if s.busy {
      var g :| g in s.live && s.live == map[g := Job(s.trace[|s.trace| - 1].id, NextStep(s.trace, steps))];
      assert s.live.Keys == {g};
      assert |s.live| == |s.live.Keys|;
    }
  }
}

/** The client's update runner (client/remoteupdate.go). */
module UpdateRunner {
  import opened RunSlots

  /** A run's marks: accepted, "running" published, its end published, a recheck asked for, and
      the slot freed. */
  const ANNOUNCE := 1
  const REPORT := 2
  const RECHECK := 3
  const RELEASE := 4
  const STEPS: nat := 5

  datatype Status = Running | Succeeded | Failed

  datatype Record = Record(id: string, status: Status)

  datatype Ack = Accepted(id: string) | Busy(id: string) | Malformed

  /** What the trace says has gone out on the result subject: a running record for each
      announcement and an end record for each report. */
  ghost predicate Published(trace: seq<Mark>, records: seq<Record>) {
    if trace == [] then records == []
    else
      var init, last := trace[..|trace| - 1], trace[|trace| - 1];
      if last.step == ANNOUNCE || last.step == REPORT then
        && records != [] && Published(init, records[..|records| - 1])
        && records[|records| - 1].id == last.id
        && (records[|records| - 1].status == Running <==> last.step == ANNOUNCE)
      else Published(init, records)
  }

  /** The result subject spells (running id, end id)* and at most one open running. */
  ghost predicate Alternates(records: seq<Record>) {
    && (forall k :: 0 <= k < |records| ==> (records[k].status == Running <==> k % 2 == 0))
    && (forall k :: 0 <= k < |records| && k % 2 == 1 ==> records[k].id == records[k - 1].id)
  }

  lemma {:induction false} ResultsAlternate(trace: seq<Mark>, records: seq<Record>)
    requires Spelled(trace, STEPS) && Published(trace, records)
    ensures Alternates(records)
    ensures |records| % 2 == 1 <==> NextStep(trace, STEPS) == REPORT
    ensures |records| % 2 == 1 ==> records[|records| - 1].id == trace[|trace| - 1].id
  {
    if trace != [] {
      var init, last := trace[..|trace| - 1], trace[|trace| - 1];
      SpelledLast(trace, STEPS);
      var published := last.step == ANNOUNCE || last.step == REPORT;
      ResultsAlternate(init, if published then records[..|records| - 1] else records);
    }
  }

  class Runner {
    var running: bool
    /** Records handed to the result subject. */
    var published: seq<Record>
    /** The main loop's recheck channel, which holds one request. */
    var recheck: bool
    ghost var slot: Slot

    ghost predicate Valid()
      reads this
    {
      && OneAtATime(slot, STEPS) && running == slot.busy
      && Published(slot.trace, published)
    }

    /** Goroutine `g`, working for request `id`, is about to take this step. */
    ghost predicate At(g: nat, id: string, step: nat)
      reads this
    {
      g in slot.live && slot.live[g] == Job(id, step)
    }

    constructor ()
      ensures Valid() && slot == FREE && published == [] && !recheck
    {
      running, published, recheck, slot := false, [], false, FREE;
    }

    method Claim() returns (ok: bool)
      modifies this`running
      ensures ok == !old(running) && running
    {
      if running {
        return false;
      }
      running := true;
      return true;
    }

    method Release()
      modifies this`running
      ensures !running
    {
      running := false;
    }

    /** Answers a command: a second one while a run holds the slot is refused, and changes nothing.
        An accepted one starts a goroutine. */
    method Handle(readable: bool, id: string, freshId: string) returns (ack: Ack)
      requires Valid()
      modifies this
      ensures Valid() && published == old(published) && recheck == old(recheck)
      ensures var runId := if id == "" then freshId else id;
        && ack == (if !readable then Malformed else if old(running) then Busy(runId) else Accepted(runId))
        && slot == (if ack.Accepted? then RunSlots.Claim(old(slot), runId) else old(slot))
    {
      if !readable {
        return Malformed;
      }
      var runId := if id == "" then freshId else id;
      var ok := Claim();
      if !ok {
        return Busy(runId);
      }
      Accept(runId);
      return Accepted(runId);
    }

    /** The bookkeeping of an accepted run, once the slot is claimed. */
    ghost method Accept(id: string)
      requires OneAtATime(slot, STEPS) && Published(slot.trace, published) && running && !slot.busy
      modifies this`slot
      ensures Valid() && slot == RunSlots.Claim(old(slot), id)
    {
      ClaimKeeps(slot, id, STEPS);
      TraceGrows(slot.trace, published, Mark(id, 0));
      slot := RunSlots.Claim(slot, id);
    }

    // The steps of a run's goroutine. Between any two of them, any other method may be called.

    method Announce(ghost g: nat, id: string)
      requires Valid() && At(g, id, ANNOUNCE)
      modifies this
      ensures Valid() && slot == Advance(old(slot), g, STEPS) && recheck == old(recheck)
      ensures published == old(published) + [Record(id, Running)]
    {
      AdvanceKeeps(slot, g, STEPS);
      published := published + [Record(id, Running)];
      assert published[..|published| - 1] == old(published);
      assert (slot.trace + [Mark(id, ANNOUNCE)])[..|slot.trace|] == slot.trace;
      slot := Advance(slot, g, STEPS);
    }

    method Report(ghost g: nat, id: string, status: Status)
      requires Valid() && At(g, id, REPORT) && status != Running
      modifies this
      ensures Valid() && slot == Advance(old(slot), g, STEPS) && recheck == old(recheck)
      ensures published == old(published) + [Record(id, status)]
    {
      AdvanceKeeps(slot, g, STEPS);
      published := published + [Record(id, status)];
      assert published[..|published| - 1] == old(published);
      assert (slot.trace + [Mark(id, REPORT)])[..|slot.trace|] == slot.trace;
      slot := Advance(slot, g, STEPS);
    }

    /** Asks the main loop to look again. The send does not block: if the channel is full, the
        check already asked for is the one wanted. Either way a recheck is queued. */
    method AskRecheck(ghost g: nat, ghost id: string)
      requires Valid() && At(g, id, RECHECK)
      modifies this
      ensures Valid() && slot == Advance(old(slot), g, STEPS) && published == old(published)
      ensures recheck
    {
      AdvanceKeeps(slot, g, STEPS);
      TraceGrows(slot.trace, published, Mark(id, RECHECK));
      if !recheck {
        recheck := true;
      }
      slot := Advance(slot, g, STEPS);
    }

    method End(ghost g: nat, ghost id: string)
      requires Valid() && At(g, id, RELEASE)
      modifies this
      ensures Valid() && slot == Advance(old(slot), g, STEPS) && published == old(published)
      ensures recheck == old(recheck) && !running
    {
      AdvanceKeeps(slot, g, STEPS);
      TraceGrows(slot.trace, published, Mark(id, RELEASE));
      Release();
      slot := Advance(slot, g, STEPS);
    }

    /** The main loop takes the recheck request. */
    method TakeRecheck() returns (taken: bool)
      requires Valid()
      modifies this`recheck
      ensures Valid() && taken == old(recheck) && !recheck
    {
      taken := recheck;
      recheck := false;
    }

    /** At every moment of every interleaving, runs accepted are runs ended and the one under way,
        which is there exactly while the slot is taken. */
    lemma AcceptedCount()
      requires Valid()
      ensures MarksAt(slot.trace, 0) == MarksAt(slot.trace, RELEASE) + (if running then 1 else 0)
      ensures |slot.live| == if running then 1 else 0
    {
      SlotCounts(slot, STEPS);
    }

    /** At every moment of every interleaving the result subject spells its alternation, and it is
        a run under way that an open running record belongs to. */
    lemma ResultsSpell()
      requires Valid()
      ensures Alternates(published)
      ensures |published| % 2 == 1 ==>
        running && exists g :: g in slot.live && At(g, published[|published| - 1].id, REPORT)
    {
      ResultsAlternate(slot.trace, published);
      if |published| % 2 == 1 {
        var job := Job(slot.trace[|slot.trace| - 1].id, NextStep(slot.trace, STEPS));
        var g :| g in slot.live && slot.live == map[g := job];
        assert At(g, published[|published| - 1].id, REPORT);
      }
    }
  }

  lemma TraceGrows(trace: seq<Mark>, records: seq<Record>, m: Mark)
    requires Published(trace, records) && m.step != ANNOUNCE && m.step != REPORT
    ensures Published(trace + [m], records)
  {
    assert (trace + [m])[..|trace|] == trace;
  }
}
