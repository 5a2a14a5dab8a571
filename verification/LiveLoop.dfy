// The trades aggregator loop: aggregate, buffer, flush on a timer, dead-letter what
// does not parse.
module LiveLoop {
  import opened Store
  import opened Market
  import opened LiveCandles

  // One element of a websocket message: its fields parse into a trade, or they do not.
  datatype Wire = Parsed(trade: Trade) | Malformed(raw: string)

  // What one turn of the loop sees: a message, with the clock read after consuming it,
  // or a failed receive.
  datatype Delivery = Message(wires: seq<Wire>, now: real) | ReceiveFailed

  datatype LoopState = LoopState(
    partial: map<string, Partial>, buffer: seq<CandleRecord>, lastFlush: real, rows: Candles, dead: seq<string>)

  function Consume(st: LoopState, w: Wire): LoopState {
    match w
    case Parsed(t) => st.(partial := Advance(st.partial, t), buffer := st.buffer + Emission(st.partial, t))
    case Malformed(raw) => st.(dead := st.dead + [raw])
  }

  function ConsumeAll(st: LoopState, ws: seq<Wire>): LoopState {
    if ws == [] then st else Consume(ConsumeAll(st, ws[..|ws| - 1]), ws[|ws| - 1])
  }

  function Flush(st: LoopState, now: real, flushSeconds: real): LoopState {
    if st.buffer != [] && now - st.lastFlush >= flushSeconds then
      st.(rows := InsertAll(st.rows, st.buffer), buffer := [], lastFlush := now)
    else st
  }

  function Turn(st: LoopState, d: Delivery, flushSeconds: real): LoopState {
    match d
    case Message(wires, now) => Flush(ConsumeAll(st, wires), now, flushSeconds)
    case ReceiveFailed => st
  }

  class TradesAggregatorLoop {
    const flushSeconds: real
    const agg: MinuteAggregator
    const table: Hypertable<Key, Row>
    const conn: Connection<Key, Row>
    var buffer: seq<CandleRecord>
    var lastFlush: real
    var dead: seq<string>

    constructor (table: Hypertable<Key, Row>, conn: Connection<Key, Row>, flushSeconds: real, now: real)
      ensures this.table == table && this.conn == conn && fresh(agg) && this.flushSeconds == flushSeconds
      ensures State() == LoopState(map[], [], now, table.rows, [])
    {
      this.table, this.conn, this.flushSeconds := table, conn, flushSeconds;
      agg := new MinuteAggregator();
      buffer, lastFlush, dead := [], now, [];
    }

    function State(): LoopState
      reads this, agg, table
    {
      LoopState(agg.partial, buffer, lastFlush, table.rows, dead)
    }

    method OnWire(w: Wire)
      modifies this, agg
      ensures State() == Consume(old(State()), w)
    {
      match w
      case Parsed(t) =>
        var finalized := agg.OnTrade(t.symbol, t.ts, t.price, t.qty);
        if finalized.Some? {
          buffer := buffer + [Record(Key(t.symbol, finalized.value.ts), OkRow(finalized.value.bar))];
        }
      case Malformed(raw) =>
        dead := dead + [raw];
    }

    method OnDelivery(d: Delivery)
      modifies this, agg, table, conn
      ensures State() == Turn(old(State()), d, flushSeconds)
    {
      hide InsertAll;
      match d
      case ReceiveFailed =>
      case Message(wires, now) =>
        for i := 0 to |wires|
          invariant State() == ConsumeAll(old(State()), wires[..i])
        {
          hide Consume;
          assert wires[..i + 1][..i] == wires[..i];
          OnWire(wires[i]);
        }
        assert wires[..|wires|] == wires;
        if buffer != [] && now - lastFlush >= flushSeconds {
          var _ := CopyIntoHypertable(conn, table, buffer);
          buffer := [];
          lastFlush := now;
        }
    }
  }

  // --- Whole runs -------------------------------------------------------------

  function Run(st: LoopState, ds: seq<Delivery>, flushSeconds: real): LoopState {
    if ds == [] then st else Turn(Run(st, ds[..|ds| - 1], flushSeconds), ds[|ds| - 1], flushSeconds)
  }

  function TradesIn(ws: seq<Wire>): seq<Trade> {
    if ws == [] then [] else
      var w := ws[|ws| - 1];
      TradesIn(ws[..|ws| - 1]) + if w.Parsed? then [w.trade] else []
  }

  function RejectsIn(ws: seq<Wire>): seq<string> {
    if ws == [] then [] else
      var w := ws[|ws| - 1];
      RejectsIn(ws[..|ws| - 1]) + if w.Malformed? then [w.raw] else []
  }

  function Wires(ds: seq<Delivery>): seq<Wire> {
    if ds == [] then [] else
      Wires(ds[..|ds| - 1]) + if ds[|ds| - 1].Message? then ds[|ds| - 1].wires else []
  }

  // The state a loop started on `rows` must be in once it has consumed `ws`: the table
  // with the buffer folded in holds everything emitted so far, whatever was flushed when.
  ghost predicate Accounted(st: LoopState, rows: Candles, ws: seq<Wire>) {
    && InsertAll(st.rows, st.buffer) == InsertAll(rows, Emitted(TradesIn(ws)))
    && st.partial == PartialAfter(TradesIn(ws))
    && st.dead == RejectsIn(ws)
  }

  lemma {:induction false} ConsumeAccounted(st: LoopState, rows: Candles, before: seq<Wire>, ws: seq<Wire>)
    requires Accounted(st, rows, before)
    ensures Accounted(ConsumeAll(st, ws), rows, before + ws)
  {
    if ws == [] {
      assert before + ws == before;
    } else {
      var front, w := ws[..|ws| - 1], ws[|ws| - 1];
      var all := before + front;
      assert ws == front + [w] && before + ws == all + [w];
      ConsumeAccounted(st, rows, before, front);
      hide Accounted, Consume;
      ConsumeOne(ConsumeAll(st, front), rows, all, w);
    }
  }

  lemma ConsumeOne(st: LoopState, rows: Candles, before: seq<Wire>, w: Wire)
    requires Accounted(st, rows, before)
    ensures Accounted(Consume(st, w), rows, before + [w])
  {
    hide Advance, Emission, Emitted, PartialAfter, InsertAll, TradesIn, RejectsIn;
    InputSnoc(before, w);
    if w.Parsed? {
      var trades := TradesIn(before);
      EmittedSnoc(trades, w.trade);
      Split(st.rows, st.buffer, Emission(st.partial, w.trade));
      Split(rows, Emitted(trades), Emission(st.partial, w.trade));
    }
  }

  lemma InputSnoc(ws: seq<Wire>, w: Wire)
    ensures TradesIn(ws + [w]) == if w.Parsed? then TradesIn(ws) + [w.trade] else TradesIn(ws)
    ensures RejectsIn(ws + [w]) == if w.Malformed? then RejectsIn(ws) + [w.raw] else RejectsIn(ws)
  {
    assert (ws + [w])[..|ws|] == ws;
  }

  lemma EmittedSnoc(trades: seq<Trade>, t: Trade)
    ensures PartialAfter(trades + [t]) == Advance(PartialAfter(trades), t)
    ensures Emitted(trades + [t]) == Emitted(trades) + Emission(PartialAfter(trades), t)
  {
    assert (trades + [t])[..|trades|] == trades;
    hide Advance, Emission;
  }

  // Buffer transparency, for every schedule of messages, failures and flushes.
  lemma {:induction false} BufferTransparency(rows: Candles, start: real, ds: seq<Delivery>, flushSeconds: real)
    ensures Accounted(Run(LoopState(map[], [], start, rows, []), ds, flushSeconds), rows, Wires(ds))
  {
    if ds == [] {
    } else {
      var front, d := ds[..|ds| - 1], ds[|ds| - 1];
      BufferTransparency(rows, start, front, flushSeconds);
      var st := Run(LoopState(map[], [], start, rows, []), front, flushSeconds);
      if d.Message? {
        ConsumeAccounted(st, rows, Wires(front), d.wires);
      } else {
        assert Wires(ds) == Wires(front);
      }
    }
  }

  // Every element of the input ends up as exactly one trade or one dead letter.
  lemma {:induction false} NothingDropped(ws: seq<Wire>)
    ensures |TradesIn(ws)| + |RejectsIn(ws)| == |ws|
    ensures forall t :: t in TradesIn(ws) <==> Parsed(t) in ws
    ensures forall raw :: raw in RejectsIn(ws) <==> Malformed(raw) in ws
  {
    if ws == [] {
    } else {
      var front, last := ws[..|ws| - 1], ws[|ws| - 1];
      NothingDropped(front);
      assert ws == front + [last];
      assert forall w :: w in ws <==> w in front || w == last;
    }
  }

  // After any run, table plus buffer plus open buckets is the same as if the trades had
  // been aggregated in one go.
  lemma SettledRun(rows: Candles, start: real, ds: seq<Delivery>, flushSeconds: real)
    ensures var st := Run(LoopState(map[], [], start, rows, []), ds, flushSeconds);
            Settle(InsertAll(st.rows, st.buffer), st.partial) == Live(rows, TradesIn(Wires(ds)))
  {
    BufferTransparency(rows, start, ds, flushSeconds);
  }

  lemma {:induction false} ConsumeKeepsClock(st: LoopState, ws: seq<Wire>)
    ensures ConsumeAll(st, ws).lastFlush == st.lastFlush && ConsumeAll(st, ws).rows == st.rows
    ensures st.buffer <= ConsumeAll(st, ws).buffer
  {
    if ws == [] {
    } else {
      ConsumeKeepsClock(st, ws[..|ws| - 1]);
      hide Advance, Emission;
    }
  }

  // Nothing stays in the buffer past its time: whatever the run, when a message has been
  // handled and candles are still buffered, the last flush is less than the interval ago;
  // and the table is written only at a flush that was due.
  lemma FlushedWhenDue(st: LoopState, wires: seq<Wire>, now: real, flushSeconds: real)
    ensures Turn(st, ReceiveFailed, flushSeconds) == st
    ensures var r := Turn(st, Message(wires, now), flushSeconds);
            && (r.buffer != [] ==> now - r.lastFlush < flushSeconds)
            && (r.rows != st.rows ==> r.buffer == [] && r.lastFlush == now && now - st.lastFlush >= flushSeconds)
            && (st.buffer != [] && now - st.lastFlush >= flushSeconds ==> r.buffer == [] && r.lastFlush == now)
  {
    ConsumeKeepsClock(st, wires);
    hide Advance, Emission;
  }
}
