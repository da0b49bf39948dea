/** The settle timer (client/recheck.go). */
module SettleTimers {
  /** A wait is not running, running, or over with its tick not yet read. */
  datatype Timer = Idle | Waiting | Fired

  /** The timer underneath keeps running and its channel apart: a tick stays in the channel after
      the wait is over, and stopping does not take it out. */
  class SettleTimer {
    var running: bool
    var tick: bool

    ghost predicate Valid()
      reads this
    {
      !(running && tick)
    }

    ghost function View(): Timer
      reads this
    {
      if running then Waiting else if tick then Fired else Idle
    }

    /** Starts as a zero-length wait, which may be over before it is disarmed. */
    constructor (alreadyOver: bool)
      ensures Valid() && View() == Idle
    {
      running, tick := !alreadyOver, alreadyOver;
      new;
      Disarm();
    }

    /** Stops the wait, and reports whether there was one to stop. */
    method Stop() returns (stopped: bool)
      modifies this`running
      ensures stopped == old(running) && !running
    {
      stopped := running;
      running := false;
    }

    /** Cancels a wait whether or not it is over. A tick that was delivered is taken out. */
    method Disarm()
      requires Valid()
      modifies this
      ensures Valid() && View() == Idle
    {
      var stopped := Stop();
      if !stopped {
        if tick {
          tick := false;
        }
      }
    }

    /** Restarts the wait, so that no tick of an earlier one can be mistaken for its own. */
    method Arm()
      requires Valid()
      modifies this
      ensures Valid() && View() == Waiting
    {
      Disarm();
      running := true;
    }

    /** The wait runs out. */
    method Expire()
      requires Valid() && running
      modifies this
      ensures Valid() && View() == Fired
    {
      running, tick := false, true;
    }

    /** The loop reads the tick. */
    method Take()
      requires Valid() && tick
      modifies this
      ensures Valid() && View() == Idle
    {
      tick := false;
    }
  }
}

/** The client's main loop (client/main.go): it checks in on a ticker, on request, and when the
    package database has changed and settled. The database is a version number, one more after
    each write; every write raises a signal, and so may anything else. */
module ClientLoop {
  import opened SettleTimers

  // ---------- what the loop remembers ----------

  /** The database as the last check began, and the settle timer. */
  datatype Memory = Memory(lastDB: nat, haveDB: bool, timer: Timer)

  /** Whether a settled wait calls for a check: not when the database is readable and is as the
      last check found it. */
  predicate SettleNeedsCheck(m: Memory, db: nat, readable: bool) {
    !(readable && m.haveDB && db == m.lastDB)
  }

  function Checked(m: Memory, db: nat, readable: bool): Memory {
    m.(lastDB := db, haveDB := readable)
  }

  class Loop {
    const settle: SettleTimer
    var lastDB: nat
    var haveDB: bool

    ghost function View(): Memory
      reads this, settle
    {
      Memory(lastDB, haveDB, settle.View())
    }

    constructor (alreadyOver: bool)
      ensures fresh(settle) && settle.Valid() && View() == Memory(0, false, Idle)
    {
      settle := new SettleTimer(alreadyOver);
      lastDB, haveDB := 0, false;
    }

    /** The start of a check: nothing without a connection, else the database is noted first. */
    method BeginCheck(connected: bool, db: nat, readable: bool) returns (collect: bool)
      modifies this
      ensures collect == connected
      ensures View() == if connected then Checked(old(View()), db, readable) else old(View())
    {
      if !connected {
        return false;
      }
      lastDB, haveDB := db, readable;
      return true;
    }

    method OnSignal()
      requires settle.Valid()
      modifies settle
      ensures settle.Valid() && View() == old(View()).(timer := Waiting)
    {
      settle.Arm();
    }

    method OnRecheckNow() returns (check: bool)
      requires settle.Valid()
      modifies settle
      ensures settle.Valid() && View() == old(View()).(timer := Idle) && check
    {
      settle.Disarm();
      return true;
    }

    method OnSettled(db: nat, readable: bool) returns (check: bool)
      requires settle.Valid() && settle.View() == Fired
      modifies settle
      ensures settle.Valid() && View() == old(View()).(timer := Idle)
      ensures check == SettleNeedsCheck(old(View()), db, readable)
    {
      settle.Take();
      if readable && haveDB && db == lastDB {
        return false;
      }
      return true;
    }
  }

  // ---------- the loop among its surroundings ----------

  /** Waiting in the select, about to start a check (and whether the settle timer asked for it),
      or collecting what the check will report. */
  datatype Place = Selecting | Starting(settled: bool) | Collecting

  /** `reported` is the version the last finished check collected, and `collected` whether one
      ever finished. The rest is history too: whether a check was dropped for want of a connection
      since the last one that was not, how many rechecks were asked for, how many of those the
      last check began after, and how many checks were begun because the database had settled. */
  datatype Client = Client(
    db: nat, signalsInFlight: nat, signal: bool, recheckNow: bool, connected: bool,
    memory: Memory, place: Place, reported: nat, collected: bool,
    missed: bool, asked: nat, answered: nat, settleChecks: nat)

  datatype Event =
    | Write
    | SpuriousSignal
    | SignalArrives
    | TimerExpires
    | AskRecheck
    | SetConnected(up: bool)
    | OnTicker
    | OnHealthTicker
    | OnSignal
    | OnRecheckNow
    | OnSettled
    | BeginCheck
    | Collect

  /** An event, and whether the package database can be read at that moment. A host without one
      never can. */
  datatype Moment = Moment(event: Event, readable: bool)

  ghost predicate Enabled(c: Client, e: Event) {
    match e
    case SignalArrives => c.signalsInFlight > 0
    case TimerExpires => c.memory.timer == Waiting
    case OnTicker => c.place == Selecting
    case OnHealthTicker => c.place == Selecting
    case OnSignal => c.place == Selecting && c.signal
    case OnRecheckNow => c.place == Selecting && c.recheckNow
    case OnSettled => c.place == Selecting && c.memory.timer == Fired
    case BeginCheck => c.place.Starting?
    case Collect => c.place == Collecting
    case _ => true
  }

  /** One step, when it can happen. */
  ghost function Step(c: Client, e: Event, readable: bool): Client {
    if !Enabled(c, e) then c
    else match e
      case Write => c.(db := c.db + 1, signalsInFlight := c.signalsInFlight + 1)
      case SpuriousSignal => c.(signalsInFlight := c.signalsInFlight + 1)
      case SignalArrives => c.(signalsInFlight := c.signalsInFlight - 1, signal := true)
      case TimerExpires => c.(memory := c.memory.(timer := Fired))
      case AskRecheck => c.(recheckNow := true, asked := c.asked + 1)
      case SetConnected(up) => c.(connected := up)
      case OnTicker => c.(place := Starting(false))
      case OnHealthTicker => c
      case OnSignal => c.(signal := false, memory := c.memory.(timer := Waiting))
      case OnRecheckNow => c.(recheckNow := false, memory := c.memory.(timer := Idle), place := Starting(false))
      case OnSettled =>
        c.(memory := c.memory.(timer := Idle),
           place := if SettleNeedsCheck(c.memory, c.db, readable) then Starting(true) else Selecting)
      case BeginCheck =>
        if !c.connected then c.(place := Selecting, missed := true)
        else c.(memory := Checked(c.memory, c.db, readable), place := Collecting, missed := false,
                answered := c.asked, settleChecks := c.settleChecks + if c.place.settled then 1 else 0)
      case Collect => c.(reported := c.db, collected := true, place := Selecting)
  }

  ghost function RunFrom(c: Client, run: seq<Moment>): Client {
    if run == [] then c else Step(RunFrom(c, run[..|run| - 1]), run[|run| - 1].event, run[|run| - 1].readable)
  }

  /** A client with its first check still to make. */
  const START := Client(0, 0, false, false, true, Memory(0, false, Idle), Starting(false), 0, false, false, 0, 0, 0)

  /** What a moment does: nothing, when its event cannot happen. */
  ghost predicate Happens(c: Client, e: Event, what: Event) {
    e == what && Enabled(c, what)
  }

  /** A check begins: there is one to begin, and a connection. */
  ghost predicate Begins(c: Client, e: Event) {
    Happens(c, e, BeginCheck) && c.connected
  }

  /** A check is dropped for want of a connection. */
  ghost predicate Drops(c: Client, e: Event) {
    Happens(c, e, BeginCheck) && !c.connected
  }

  /** Something is on its way that will make the loop look at the database again. */
  ghost predicate Pending(c: Client) {
    c.signalsInFlight > 0 || c.signal || c.memory.timer != Idle || c.place.Starting?
  }

  /** No change is lost: while the database differs from what the last check noted, another look
      is pending or a check has been dropped for want of a connection; likewise every recheck
      asked for is queued, about to be made, or answered by a check that began after it. */
  ghost predicate NothingLost(c: Client) {
    && c.memory.lastDB <= c.db && c.reported <= c.db
    && (c.memory.lastDB != c.db ==> Pending(c) || c.missed)
    && (c.answered != c.asked ==> c.recheckNow || c.place.Starting? || c.missed)
    && (c.collected && c.place != Collecting ==> c.memory.lastDB <= c.reported)
    && (c.memory.haveDB ==> c.collected || c.place == Collecting)
  }

  lemma StepKeeps(c: Client, e: Event, now: bool)
    requires NothingLost(c)
    ensures NothingLost(Step(c, e, now))
  {}

  lemma {:induction false} RunKeeps(c: Client, run: seq<Moment>)
    requires NothingLost(c)
    ensures NothingLost(RunFrom(c, run))
  {
    if run != [] {
      var init, m := run[..|run| - 1], run[|run| - 1];
      RunKeeps(c, init);
      StepKeeps(RunFrom(c, init), m.event, m.readable);
    }
  }

  // ---------- exactly when a change is lost ----------

  /** The server is behind the host: no check has finished yet, or a write has come since the last
      one did. */
  ghost predicate Behind(run: seq<Moment>) {
    run == [] ||
    var c, e := RunFrom(START, run[..|run| - 1]), run[|run| - 1].event;
    Happens(c, e, Write) || (!Happens(c, e, Collect) && Behind(run[..|run| - 1]))
  }

  /** A check was dropped while the server was behind, and none has finished since. */
  ghost predicate ChangeDropped(run: seq<Moment>) {
    run != [] &&
    var c, e := RunFrom(START, run[..|run| - 1]), run[|run| - 1].event;
    || (Drops(c, e) && Behind(run[..|run| - 1]))
    || (!Happens(c, e, Collect) && ChangeDropped(run[..|run| - 1]))
  }

  /** While the server is behind, a look is pending or under way unless one was dropped; and one
      that was dropped leaves it behind. */
  ghost predicate Accounted(c: Client, behind: bool, dropped: bool) {
    && (behind <==> !c.collected || c.reported != c.db)
    && (behind ==> Pending(c) || c.place == Collecting || dropped)
    && (dropped ==> behind)
  }

  lemma AccountedStep(c: Client, e: Event, now: bool, behind: bool, dropped: bool)
    requires NothingLost(c) && Accounted(c, behind, dropped)
    ensures Accounted(Step(c, e, now), Happens(c, e, Write) || (!Happens(c, e, Collect) && behind),
                      (Drops(c, e) && behind) || (!Happens(c, e, Collect) && dropped))
  {}

  lemma {:induction false} RunAccounted(run: seq<Moment>)
    ensures Accounted(RunFrom(START, run), Behind(run), ChangeDropped(run))
  {
    if run != [] {
      var init, m := run[..|run| - 1], run[|run| - 1];
      RunKeeps(START, init);
      RunAccounted(init);
      AccountedStep(RunFrom(START, init), m.event, m.readable, Behind(init), ChangeDropped(init));
    }
  }

  /** Exactly when the server ends up knowing the truth. After any run from the first check on,
      however writes, signals, timers, requests and lost connections interleave and whenever the
      database is readable, once no signal is under way, the timer is idle and the loop is
      waiting: the last check collected the database as it is if and only if no check has been
      dropped, for want of a connection, while a change or the first report was due and without
      one finishing since. */
  lemma ReportedExactly(run: seq<Moment>)
    ensures var c := RunFrom(START, run);
      c.place == Selecting && !Pending(c) ==>
        (c.collected && c.reported == c.db <==> !ChangeDropped(run))
  {
    RunAccounted(run);
  }

  // ---------- exactly when a recheck is lost ----------

  /** A request has come since the last check that began. */
  ghost predicate Unanswered(run: seq<Moment>) {
    run != [] &&
    var c, e := RunFrom(START, run[..|run| - 1]), run[|run| - 1].event;
    Happens(c, e, AskRecheck) || (!Begins(c, e) && Unanswered(run[..|run| - 1]))
  }

  /** A check was dropped while a request was unanswered, and none has begun since. */
  ghost predicate RequestDropped(run: seq<Moment>) {
    run != [] &&
    var c, e := RunFrom(START, run[..|run| - 1]), run[|run| - 1].event;
    || (Drops(c, e) && Unanswered(run[..|run| - 1]))
    || (!Begins(c, e) && RequestDropped(run[..|run| - 1]))
  }

  ghost predicate Owed(c: Client, unanswered: bool, dropped: bool) {
    && c.answered <= c.asked && (unanswered <==> c.answered != c.asked)
    && (unanswered ==> c.recheckNow || c.place.Starting? || dropped)
    && (dropped ==> unanswered)
  }

  lemma OwedStep(c: Client, e: Event, now: bool, unanswered: bool, dropped: bool)
    requires Owed(c, unanswered, dropped)
    ensures Owed(Step(c, e, now), Happens(c, e, AskRecheck) || (!Begins(c, e) && unanswered),
                 (Drops(c, e) && unanswered) || (!Begins(c, e) && dropped))
  {}

  lemma {:induction false} RunOwed(run: seq<Moment>)
    ensures Owed(RunFrom(START, run), Unanswered(run), RequestDropped(run))
  {
    if run != [] {
      var init, m := run[..|run| - 1], run[|run| - 1];
      RunOwed(init);
      OwedStep(RunFrom(START, init), m.event, m.readable, Unanswered(init), RequestDropped(init));
    }
  }

  /** Exactly when a request the host accepted is honoured: once none is queued and the loop is
      waiting, every one was followed by a check if and only if no check has been dropped while
      one was unanswered and without another beginning since. */
  lemma AnsweredExactly(run: seq<Moment>)
    ensures var c := RunFrom(START, run);
      c.place == Selecting && !c.recheckNow ==> (c.answered == c.asked <==> !RequestDropped(run))
  {
    RunOwed(run);
  }

  // ---------- a client that stays connected ----------

  ghost predicate StaysConnected(run: seq<Moment>) {
    forall m :: m in run ==> m.event != SetConnected(false)
  }

  lemma {:induction false} ConnectedMissesNothing(run: seq<Moment>)
    requires StaysConnected(run)
    ensures var c := RunFrom(START, run); c.connected && !c.missed
    ensures !ChangeDropped(run) && !RequestDropped(run)
  {
    if run != [] {
      var init, m := run[..|run| - 1], run[|run| - 1];
      ConnectedMissesNothing(init);
      assert m in run;
      ConnectedStep(RunFrom(START, init), m.event, m.readable);
    }
  }

  lemma ConnectedStep(c: Client, e: Event, now: bool)
    requires c.connected && !c.missed && e != SetConnected(false)
    ensures var after := Step(c, e, now); after.connected && !after.missed
  {}

  /** So a client that stays connected loses nothing: when things go quiet the server knows the
      truth, and every request was followed by a check. */
  lemma QuietMeansReported(run: seq<Moment>)
    requires StaysConnected(run)
    ensures var c := RunFrom(START, run);
      && (c.place == Selecting && !Pending(c) ==> c.collected && c.reported == c.db)
      && (c.place == Selecting && !c.recheckNow ==> c.answered == c.asked)
  {
    ConnectedMissesNothing(run);
    ReportedExactly(run);
    AnsweredExactly(run);
  }

  // ---------- losing one ----------

  ghost function Do(c: Client, e: Event): Client {
    Step(c, e, true)
  }

  /** A run that loses a change, from any quiet moment: a write is signalled, the wait runs out
      while the connection is down, and the one look it was good for is dropped; the connection
      comes back, nothing is pending, and the server is behind. */
  lemma LostWhileDisconnected(c: Client)
    requires NothingLost(c) && c.place == Selecting && c.connected && !Pending(c)
    ensures var settled := Do(Do(Do(Do(Do(Do(c, Write), SignalArrives), OnSignal), TimerExpires),
                                 SetConnected(false)), OnSettled);
      var after := Do(Do(settled, BeginCheck), SetConnected(true));
      after.place == Selecting && after.connected && !Pending(after) && after.missed && after.reported != after.db
  {}

  /** And one that loses a request the host accepted. */
  lemma RequestLostWhileDisconnected(c: Client)
    requires c.place == Selecting && c.answered <= c.asked && !c.recheckNow
    ensures var dropped := Do(Do(Do(Do(c, AskRecheck), SetConnected(false)), OnRecheckNow), BeginCheck);
      var after := Do(dropped, SetConnected(true));
      after.place == Selecting && after.connected && !after.recheckNow && after.answered < after.asked
  {}

  /** The next ticker check repairs both, in any reachable state. */
  lemma TickRepairs(c: Client, readable: bool)
    requires NothingLost(c) && c.place == Selecting && c.connected
    ensures var after := Step(Step(Step(c, OnTicker, readable), BeginCheck, readable),
                              Collect, readable);
      && after.place == Selecting && !after.missed
      && after.collected && after.reported == after.db == c.db && after.answered == c.asked
  {}

  /** A check made on request answers the wait under way as well: with no signal still to come, nothing
      is pending after it. */
  lemma RequestAnswersWait(c: Client)
    requires c.place == Selecting && c.recheckNow && c.connected && c.signalsInFlight == 0 && !c.signal
    ensures var after := Do(Do(Do(c, OnRecheckNow), BeginCheck), Collect);
      !Pending(after) && after.reported == after.db && after.answered == after.asked
  {}

  // ---------- exactly when a settled wait checks ----------

  /** The database could be read when the last check began; not, when none has. */
  ghost predicate LastCheckReadable(run: seq<Moment>) {
    run != [] &&
    var c, e := RunFrom(START, run[..|run| - 1]), run[|run| - 1].event;
    if Begins(c, e) then run[|run| - 1].readable else LastCheckReadable(run[..|run| - 1])
  }

  /** A write has come since the last check began, if one ever did. */
  ghost predicate WrittenSinceCheck(run: seq<Moment>) {
    run != [] &&
    var c, e := RunFrom(START, run[..|run| - 1]), run[|run| - 1].event;
    Happens(c, e, Write) || (!Begins(c, e) && WrittenSinceCheck(run[..|run| - 1]))
  }

  ghost predicate Noted(c: Client, written: bool, readable: bool) {
    && c.memory.lastDB <= c.db && (c.memory.lastDB != c.db <==> written)
    && (c.memory.haveDB <==> readable)
  }

  lemma NotedStep(c: Client, e: Event, now: bool, written: bool, readable: bool)
    requires Noted(c, written, readable)
    ensures Noted(Step(c, e, now), Happens(c, e, Write) || (!Begins(c, e) && written),
                  if Begins(c, e) then now else readable)
  {}

  lemma {:induction false} RunNoted(run: seq<Moment>)
    ensures Noted(RunFrom(START, run), WrittenSinceCheck(run), LastCheckReadable(run))
  {
    if run != [] {
      var init, m := run[..|run| - 1], run[|run| - 1];
      RunNoted(init);
      NotedStep(RunFrom(START, init), m.event, m.readable, WrittenSinceCheck(init), LastCheckReadable(init));
    }
  }

  /** After any run, a settled wait leads to a check if and only if a write has come since the last
      check began, or the database cannot be read now, or it could not be read then. */
  lemma SettledWaitExact(run: seq<Moment>, readable: bool)
    requires Enabled(RunFrom(START, run), OnSettled)
    ensures Step(RunFrom(START, run), OnSettled, readable).place == Starting(true) <==>
            WrittenSinceCheck(run) || !readable || !LastCheckReadable(run)
  {
    RunNoted(run);
  }

  /** A signal with no write behind it, from any quiet moment when the last check noted the database
      as it is: the wait it starts ends in a check if and only if the database cannot be read when
      the wait is over, or could not when the last check began. */
  lemma SpuriousSignalChecks(c: Client, readable: bool)
    requires c.place == Selecting && c.connected && !Pending(c) && c.memory.lastDB == c.db
    ensures var fired := Do(Do(Do(Do(c, SpuriousSignal), SignalArrives), OnSignal), TimerExpires);
      var after := Do(Step(fired, OnSettled, readable), BeginCheck);
      && after.db == c.db
      && after.settleChecks == c.settleChecks + if readable && c.memory.haveDB then 0 else 1
  {}

  ghost function Writes(run: seq<Moment>): nat {
    if run == [] then 0 else Writes(run[..|run| - 1]) + if run[|run| - 1].event == Write then 1 else 0
  }

  /** Waits that ended with nothing to compare: the database could not be read then, or not when the
      last check began. */
  ghost function BlindWaits(c: Client, run: seq<Moment>): nat {
    if run == [] then 0
    else
      var before, m := RunFrom(c, run[..|run| - 1]), run[|run| - 1];
      BlindWaits(c, run[..|run| - 1])
      + if m.event == OnSettled && Enabled(before, OnSettled) && !(m.readable && before.memory.haveDB) then 1 else 0
  }

  /** Every settled check begun or about to begin is paid for by a write it is the first to note,
      or by a blind wait. */
  ghost predicate Earned(c: Client, after: Client, writes: nat, blind: nat) {
    && after.db == c.db + writes && c.memory.lastDB <= after.memory.lastDB <= after.db
    && after.settleChecks - c.settleChecks + (if after.place == Starting(true) then 1 else 0)
       <= after.memory.lastDB - c.memory.lastDB + blind
          + if after.place == Starting(true) && after.memory.lastDB < after.db then 1 else 0
  }

  lemma EarnedStep(c: Client, mid: Client, e: Event, now: bool, writes: nat, blind: nat)
    requires Earned(c, mid, writes, blind)
    ensures Earned(c, Step(mid, e, now), writes + if e == Write then 1 else 0,
                   blind + if e == OnSettled && Enabled(mid, OnSettled) && !(now && mid.memory.haveDB)
                           then 1 else 0)
  {}

  lemma {:induction false} RunEarned(c: Client, run: seq<Moment>)
    requires c.memory.lastDB <= c.db && c.place != Starting(true)
    ensures Earned(c, RunFrom(c, run), Writes(run), BlindWaits(c, run))
  {
    if run != [] {
      var init, m := run[..|run| - 1], run[|run| - 1];
      RunEarned(c, init);
      EarnedStep(c, RunFrom(c, init), m.event, m.readable, Writes(init), BlindWaits(c, init));
    }
  }

  /** The loop does not feed itself: from any moment when the database is as the last check noted
      it, checks made because the database had settled are at most as many as the writes that
      really happened and the waits that ended blind, however many signals come. */
  lemma SettleChecksNeedWrites(c: Client, run: seq<Moment>)
    requires c.memory.lastDB == c.db && c.place != Starting(true)
    ensures RunFrom(c, run).settleChecks - c.settleChecks <= Writes(run) + BlindWaits(c, run)
  {
    RunEarned(c, run);
  }

  /** So on a host whose database is always readable, writes alone account for them. */
  lemma {:induction false} ReadableNeverBlind(c: Client, run: seq<Moment>)
    requires c.memory.haveDB && forall m :: m in run ==> m.readable
    ensures BlindWaits(c, run) == 0 && RunFrom(c, run).memory.haveDB
  {
    if run != [] {
      var init, m := run[..|run| - 1], run[|run| - 1];
      ReadableNeverBlind(c, init);
      assert m in run;
      StaysReadable(RunFrom(c, init), m.event);
    }
  }

  lemma StaysReadable(c: Client, e: Event)
    requires c.memory.haveDB
    ensures Step(c, e, true).memory.haveDB
  {}
}
