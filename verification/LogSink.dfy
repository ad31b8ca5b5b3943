/** The asynchronous log sink: writers offer entries to a bounded channel, one goroutine batches them into the
    database (server/internal/logger/db_sink.go). */
module LogSink {

  datatype SinkEntry = SinkEntry(level: string, mod: string, message: string)

  datatype Config = Config(bufferSize: int, batchSize: int)

  /** NewDBSink replaces sizes that are not positive by the defaults. */
  function Effective(cfg: Config): (r: Config)
    ensures r.bufferSize > 0 && r.batchSize > 0
  {
    Config(if cfg.bufferSize <= 0 then 1024 else cfg.bufferSize, if cfg.batchSize <= 0 then 64 else cfg.batchSize)
  }

  /** The channel, the batch being filled, the batches handed to an insert, and whether the channel is closed and the
      flush goroutine has returned. */
  datatype State = State(ch: seq<SinkEntry>, batch: seq<SinkEntry>, inserted: seq<seq<SinkEntry>>,
                         closed: bool, done: bool)

  datatype Outcome = Accepted | Dropped | Panicked

  /** One atomic step of a writer, of the flush goroutine or of Close. */
  datatype Event = Enqueue(entry: SinkEntry) | Receive | Tick | CloseChannel

  function Offer(cfg: Config, s: State): Outcome {
    if s.closed then Panicked else if |s.ch| < cfg.bufferSize then Accepted else Dropped
  }

  function Flush(s: State): State {
    if s.batch == [] then s else s.(inserted := s.inserted + [s.batch], batch := [])
  }

  function Step(cfg: Config, s: State, ev: Event): State {
    match ev
    case Enqueue(e) => if Offer(cfg, s) == Accepted then s.(ch := s.ch + [e]) else s
    case CloseChannel => s.(closed := true)
    case Tick => if s.done then s else Flush(s)
    case Receive =>
      if s.done then s
      else if s.ch != [] then
        var t := s.(ch := s.ch[1..], batch := s.batch + [s.ch[0]]);
        if |t.batch| >= cfg.batchSize then Flush(t) else t
      else if s.closed then Flush(s).(done := true)
      else s
  }

  const EMPTY := State([], [], [], false, false)

  // ---------- one wake of the goroutine ----------

  /** A tick of a running sink inserts what is batched, if anything is, and leaves the batch empty and the channel as it
      is. */
  lemma TickEmptiesBatch(cfg: Config, s: State)
    requires !s.done
    ensures var t := Step(cfg, s, Tick);
      && t.batch == [] && t.ch == s.ch && t.inserted == s.inserted + (if s.batch == [] then [] else [s.batch])
      && t.closed == s.closed && !t.done
  {
    if s.batch == [] { assert s.inserted + [] == s.inserted; }
  }

  /** A receive moves the first entry of the channel into the batch, which is inserted if and only if that fills it. A
      drained closed channel ends the goroutine after a last insert. */
  lemma ReceiveMeans(cfg: Config, s: State)
    requires !s.done && cfg.batchSize > 0
    ensures var t := Step(cfg, s, Receive);
      if s.ch != [] then
        var full := |s.batch| + 1 >= cfg.batchSize;
        && t.ch == s.ch[1..] && !t.done
        && t.inserted == s.inserted + (if full then [s.batch + [s.ch[0]]] else [])
        && t.batch == if full then [] else s.batch + [s.ch[0]]
      else if s.closed then
        t.done && t.batch == [] && t.inserted == s.inserted + (if s.batch == [] then [] else [s.batch])
      else t == s
  {
    assert s.inserted + [] == s.inserted;
  }

  // ---------- the sink as an object ----------

  function Flatten(batches: seq<seq<SinkEntry>>): seq<SinkEntry> {
    if batches == [] then [] else Flatten(batches[..|batches| - 1]) + batches[|batches| - 1]
  }

  class DBSink {
    const cfg: Config
    var ch: seq<SinkEntry>
    var buffer: array<SinkEntry>
    var used: nat
    var table: seq<seq<SinkEntry>>
    var closed: bool
    var done: bool
    /** Every entry a writer got into the channel, in that order. */
    ghost var accepted: seq<SinkEntry>

    ghost predicate Valid()
      reads this, buffer
    {
      && cfg == Effective(cfg)
      && buffer.Length == cfg.batchSize && used <= buffer.Length
      && Good(cfg, View(), accepted)
    }

    ghost function View(): State
      reads this, buffer
      requires used <= buffer.Length
    {
      State(ch, buffer[..used], table, closed, done)
    }

    constructor (requested: Config)
      ensures Valid() && cfg == Effective(requested) && View() == EMPTY && accepted == []
      ensures fresh(buffer)
    {
      cfg := Effective(requested);
      buffer := new SinkEntry[Effective(requested).batchSize](_ => SinkEntry("", "", ""));
      ch, used, table, closed, done, accepted := [], 0, [], false, false, [];
    }

    method Enqueue(entry: SinkEntry) returns (outcome: Outcome)
      requires Valid()
      modifies this`ch, this`accepted
      ensures Valid() && View() == Step(cfg, old(View()), Event.Enqueue(entry))
      ensures outcome == Offer(cfg, old(View()))
      ensures accepted == if outcome == Accepted then old(accepted) + [entry] else old(accepted)
    {
      StepKeepsGood(cfg, View(), accepted, Event.Enqueue(entry));
      if closed { return Panicked; }
      if |ch| < cfg.bufferSize {
        ch, accepted := ch + [entry], accepted + [entry];
        outcome := Accepted;
      } else {
        outcome := Dropped;
      }
    }

    /** The flush closure: the batch goes to an insert and its slice is reused from the start. */
    method FlushBatch()
      requires used <= buffer.Length
      modifies this`table, this`used
      ensures used == 0 && table == old(table) + (if old(used) == 0 then [] else [old(buffer[..used])])
    {
      assert table + [] == table;
      if used == 0 { return; }
      table := table + [buffer[..used]];
      used := 0;
    }

    /** One iteration of the select loop, woken by the ticker. */
    method WakeByTick()
      requires Valid() && !done
      modifies this`table, this`used
      ensures Valid() && View() == Step(cfg, old(View()), Tick)
    {
      ghost var before := View();
      StepKeepsGood(cfg, before, accepted, Tick);
      FlushBatch();
      FlushIs(before, View());
    }

    /** The entry received joins the batch, which goes to an insert when it is full. */
    method Take(entry: SinkEntry)
      requires used < buffer.Length == cfg.batchSize
      modifies this`table, this`used, buffer
      ensures used < buffer.Length
      ensures table == old(table) + (if old(used) + 1 == cfg.batchSize then [old(buffer[..used]) + [entry]] else [])
      ensures buffer[..used] == if old(used) + 1 == cfg.batchSize then [] else old(buffer[..used]) + [entry]
    {
      buffer[used] := entry;
      used := used + 1;
      assert buffer[..used] == old(buffer[..used]) + [entry];
      assert table + [] == table;
      if used >= cfg.batchSize { FlushBatch(); }
    }

    /** One iteration of the select loop, woken by the channel. */
    method WakeByChannel()
      requires Valid() && !done && (ch != [] || closed)
      modifies this`ch, this`table, this`used, this`done, buffer
      ensures Valid() && View() == Step(cfg, old(View()), Receive)
    {
      ghost var before := View();
      ReceiveFits(cfg, before, accepted);
      if ch == [] {
        FlushBatch();
        done := true;
      } else {
        var entry := ch[0];
        ch := ch[1..];
        Take(entry);
      }
      ReceiveIs(cfg, before, View());
    }

    /** Closes the channel and waits for the goroutine, whose remaining wake-ups are ticks where `ticks` says so. */
    method Close(ticks: seq<bool>)
      requires Valid() && !closed && !done
      modifies this`ch, this`table, this`used, this`closed, this`done, buffer
      ensures Valid() && done && closed
      ensures ch == [] && used == 0 && Flatten(table) == accepted
    {
      closed := true;
      var i := 0;
      while !done
        invariant Valid() && closed
        decreases !done, |ch| + (if i < |ticks| then |ticks| - i else 0)
      {
        if i < |ticks| && ticks[i] { WakeByTick(); } else { WakeByChannel(); }
        i := i + 1;
      }
    }
  }

  // ---------- what every interleaving keeps ----------

  /** The entries accepted so far are exactly those inserted, batched and queued, in this order. */
  ghost predicate Good(cfg: Config, s: State, accepted: seq<SinkEntry>) {
    && Flatten(s.inserted) + s.batch + s.ch == accepted
    && |s.ch| <= cfg.bufferSize
    && |s.batch| < cfg.batchSize
    && InSize(cfg, s.inserted)
    && (s.done ==> s.closed && s.ch == [] && s.batch == [])
  }

  function AcceptedBy(cfg: Config, s: State, ev: Event): seq<SinkEntry> {
    if ev.Enqueue? && Offer(cfg, s) == Accepted then [ev.entry] else []
  }

  lemma FlushKeepsOrder(s: State)
    ensures Flatten(Flush(s).inserted) + Flush(s).batch == Flatten(s.inserted) + s.batch
  {
    if s.batch != [] {
      assert (s.inserted + [s.batch])[..|s.inserted|] == s.inserted;
    }
  }

  lemma FlushIs(s: State, t: State)
    requires t.batch == [] && t.inserted == s.inserted + (if s.batch == [] then [] else [s.batch])
    requires t.ch == s.ch && t.closed == s.closed && t.done == s.done
    ensures t == Flush(s)
  {
    assert s.inserted + [] == s.inserted;
  }

  lemma ReceiveIs(cfg: Config, s: State, t: State)
    requires !s.done && |s.batch| < cfg.batchSize && (s.ch != [] || s.closed) && t.closed == s.closed
    requires if s.ch == [] then
               t == s.(done := true, batch := [], inserted := s.inserted + (if s.batch == [] then [] else [s.batch]))
             else
               var full := |s.batch| + 1 == cfg.batchSize;
               t == s.(ch := s.ch[1..], batch := if full then [] else s.batch + [s.ch[0]],
                       inserted := s.inserted + (if full then [s.batch + [s.ch[0]]] else []))
    ensures t == Step(cfg, s, Receive)
  {
    assert s.inserted + [] == s.inserted;
  }

  lemma HeadMoves(a: seq<SinkEntry>, b: seq<SinkEntry>, ch: seq<SinkEntry>)
    requires ch != []
    ensures a + (b + [ch[0]]) + ch[1..] == a + b + ch
  {
  }

  /** There is room in the batch, and after a receive all is good. */
  lemma ReceiveFits(cfg: Config, s: State, accepted: seq<SinkEntry>)
    requires cfg.batchSize > 0 && Good(cfg, s, accepted)
    ensures |s.batch| < cfg.batchSize && Good(cfg, Step(cfg, s, Receive), accepted)
  {
    ReceiveKeepsGood(cfg, s, accepted);
  }

  lemma OfferKeepsGood(cfg: Config, s: State, accepted: seq<SinkEntry>, e: SinkEntry)
    requires Good(cfg, s, accepted) && Offer(cfg, s) == Accepted
    ensures Good(cfg, s.(ch := s.ch + [e]), accepted + [e])
  {
    assert Flatten(s.inserted) + s.batch + (s.ch + [e]) == Flatten(s.inserted) + s.batch + s.ch + [e];
  }

  lemma ReceiveKeepsGood(cfg: Config, s: State, accepted: seq<SinkEntry>)
    requires cfg.batchSize > 0 && Good(cfg, s, accepted)
    ensures Good(cfg, Step(cfg, s, Receive), accepted)
  {
    if !s.done && s.ch != [] {
      var moved := s.(ch := s.ch[1..], batch := s.batch + [s.ch[0]]);
      MoveKeepsOrder(s, accepted);
      FlushKeepsOrder(moved);
      FlushKeepsSizes(cfg, moved);
    } else {
      FlushKeepsOrder(s);
      FlushKeepsSizes(cfg, s);
    }
  }

  predicate InSize(cfg: Config, batches: seq<seq<SinkEntry>>) {
    forall i :: 0 <= i < |batches| ==> 1 <= |batches[i]| <= cfg.batchSize
  }

  lemma FlushKeepsSizes(cfg: Config, s: State)
    requires InSize(cfg, s.inserted) && |s.batch| <= cfg.batchSize
    ensures InSize(cfg, Flush(s).inserted) && Flush(s).batch == []
  {
  }

  lemma MoveKeepsOrder(s: State, accepted: seq<SinkEntry>)
    requires s.ch != [] && Flatten(s.inserted) + s.batch + s.ch == accepted
    ensures Flatten(s.inserted) + (s.batch + [s.ch[0]]) + s.ch[1..] == accepted
  {
    HeadMoves(Flatten(s.inserted), s.batch, s.ch);
  }

  lemma StepKeepsGood(cfg: Config, s: State, accepted: seq<SinkEntry>, ev: Event)
    requires cfg.bufferSize > 0 && cfg.batchSize > 0 && Good(cfg, s, accepted)
    ensures Good(cfg, Step(cfg, s, ev), accepted + AcceptedBy(cfg, s, ev))
  {
    assert accepted + [] == accepted;
    match ev
    case Enqueue(e) => if Offer(cfg, s) == Accepted { OfferKeepsGood(cfg, s, accepted, e); }
    case CloseChannel =>
    case Tick =>
      FlushKeepsOrder(s);
      FlushKeepsSizes(cfg, s);
    case Receive => ReceiveKeepsGood(cfg, s, accepted);
  }

  datatype History = History(state: State, accepted: seq<SinkEntry>, refused: nat)

  /** Any interleaving of writers, ticks, receives and close, from a new sink. */
  function Run(cfg: Config, events: seq<Event>): History {
    if events == [] then History(EMPTY, [], 0)
    else
      var before, ev := Run(cfg, events[..|events| - 1]), events[|events| - 1];
      History(Step(cfg, before.state, ev), before.accepted + AcceptedBy(cfg, before.state, ev),
              before.refused + (if ev.Enqueue? && Offer(cfg, before.state) != Accepted then 1 else 0))
  }

  function Offers(events: seq<Event>): nat {
    if events == [] then 0
    else Offers(events[..|events| - 1]) + (if events[|events| - 1].Enqueue? then 1 else 0)
  }

  /** In every interleaving: conservation in acceptance order, the batch and channel bounds, and every offered entry
      either accepted or refused. Once the goroutine has returned, everything accepted was inserted exactly once. */
  lemma {:induction false} EveryInterleavingConserves(cfg: Config, events: seq<Event>)
    requires cfg.bufferSize > 0 && cfg.batchSize > 0
    ensures var h := Run(cfg, events);
            && Good(cfg, h.state, h.accepted)
            && |h.accepted| + h.refused == Offers(events)
            && (h.state.done ==> Flatten(h.state.inserted) == h.accepted)
  {
    if events != [] {
      var before := Run(cfg, events[..|events| - 1]);
      EveryInterleavingConserves(cfg, events[..|events| - 1]);
      StepKeepsGood(cfg, before.state, before.accepted, events[|events| - 1]);
    }
    var h := Run(cfg, events);
    if h.state.done { assert Flatten(h.state.inserted) + [] + [] == h.accepted; }
  }

  /** A step refuses an entry exactly when the channel is full or closed, and then it changes nothing. */
  lemma RefusedOnlyWhenFull(cfg: Config, s: State, e: SinkEntry)
    requires |s.ch| <= cfg.bufferSize
    ensures Offer(cfg, s) == Dropped <==> !s.closed && |s.ch| == cfg.bufferSize
    ensures Step(cfg, s, Enqueue(e)) != s <==> Offer(cfg, s) == Accepted
  {
    assert s.ch + [e] != s.ch by { assert |s.ch + [e]| != |s.ch|; }
  }

  function Receives(events: seq<Event>): nat {
    if events == [] then 0 else (if events[0] == Receive then 1 else 0) + Receives(events[1..])
  }

  function StepAll(cfg: Config, s: State, events: seq<Event>): State
    decreases |events|
  {
    if events == [] then s else StepAll(cfg, Step(cfg, s, events[0]), events[1..])
  }

  /** After the close, whatever else happens, one receive per queued entry and one more end the goroutine. */
  lemma {:induction false} ClosedSinkDrains(cfg: Config, s: State, events: seq<Event>)
    requires s.closed && (s.done || Receives(events) > |s.ch|)
    ensures StepAll(cfg, s, events).done
    decreases |events|
  {
    if events != [] {
      var t := Step(cfg, s, events[0]);
      ClosedSinkDrains(cfg, t, events[1..]);
    }
  }
}
