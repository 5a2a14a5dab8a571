// The raw trade tape: the second loop that buffers and flushes, keyed by the exchange's trade id.
module TradeTape {
  import opened Store
  import LiveCandles
  import MinuteRuns

  // A trade with what the tape needs besides: its id and its side.
  datatype Fill = Fill(trade: LiveCandles.Trade, id: string, side: string)

  datatype Wire = Complete(fill: Fill) | Incomplete(raw: string)

  datatype Delivery = Message(wires: seq<Wire>, now: real) | ReceiveFailed

  datatype TapeKey = TapeKey(symbol: string, ts: int, id: string)

  datatype TapeValue = TapeValue(side: string, price: real, qty: real)

  type Tape = map<TapeKey, TapeValue>
  type TapeRecord = Record<TapeKey, TapeValue>

  datatype LoopState = LoopState(buffer: seq<TapeRecord>, lastFlush: real, rows: Tape, dead: seq<string>)

  function RecordOf(f: Fill): TapeRecord {
    Record(TapeKey(f.trade.symbol, f.trade.ts, f.id), TapeValue(f.side, f.trade.price, f.trade.qty))
  }

  function RecordsIn(ws: seq<Wire>): seq<TapeRecord> {
    if ws == [] then []
    else
      var w := ws[|ws| - 1];
      RecordsIn(ws[..|ws| - 1]) + if w.Complete? then [RecordOf(w.fill)] else []
  }

  function RejectsIn(ws: seq<Wire>): seq<string> {
    if ws == [] then []
    else
      var w := ws[|ws| - 1];
      RejectsIn(ws[..|ws| - 1]) + if w.Incomplete? then [w.raw] else []
  }

  function Turn(st: LoopState, d: Delivery, flushSeconds: real): LoopState {
    match d
    case ReceiveFailed => st
    case Message(wires, now) =>
      var buffer, dead := st.buffer + RecordsIn(wires), st.dead + RejectsIn(wires);
      if buffer != [] && now - st.lastFlush >= flushSeconds
      then LoopState([], now, InsertAll(st.rows, buffer), dead)
      else LoopState(buffer, st.lastFlush, st.rows, dead)
  }

  class TradesPersistLoop {
    const flushSeconds: real
    const table: Hypertable<TapeKey, TapeValue>
    const conn: Connection<TapeKey, TapeValue>
    var buffer: seq<TapeRecord>
    var lastFlush: real
    var dead: seq<string>

    constructor (table: Hypertable<TapeKey, TapeValue>, conn: Connection<TapeKey, TapeValue>, flushSeconds: real, now: real)
      ensures this.table == table && this.conn == conn && this.flushSeconds == flushSeconds
      ensures State() == LoopState([], now, table.rows, [])
    {
      this.table, this.conn, this.flushSeconds := table, conn, flushSeconds;
      buffer, lastFlush, dead := [], now, [];
    }

    function State(): LoopState
      reads this, table
    {
      LoopState(buffer, lastFlush, table.rows, dead)
    }

    method OnDelivery(d: Delivery)
      modifies this, table, conn
      ensures State() == Turn(old(State()), d, flushSeconds)
    {
      match d
      case ReceiveFailed =>
      case Message(wires, now) =>
        for i := 0 to |wires|
          invariant buffer == old(buffer) + RecordsIn(wires[..i]) && dead == old(dead) + RejectsIn(wires[..i])
          invariant table.rows == old(table.rows) && lastFlush == old(lastFlush)
        {
          assert wires[..i + 1][..i] == wires[..i];
          match wires[i]
          case Complete(fill) => buffer := buffer + [RecordOf(fill)];
          case Incomplete(raw) => dead := dead + [raw];
        }
        assert wires[..|wires|] == wires;
        if buffer != [] && now - lastFlush >= flushSeconds {
          var _ := CopyIntoHypertable(conn, table, buffer);
          buffer := [];
          lastFlush := now;
        }
    }
  }

  // --- Whole runs -------------------------------------------------------------------

  function Run(st: LoopState, ds: seq<Delivery>, flushSeconds: real): LoopState {
    if ds == [] then st else Turn(Run(st, ds[..|ds| - 1], flushSeconds), ds[|ds| - 1], flushSeconds)
  }

  function Wires(ds: seq<Delivery>): seq<Wire> {
    if ds == [] then []
    else Wires(ds[..|ds| - 1]) + if ds[|ds| - 1].Message? then ds[|ds| - 1].wires else []
  }

  // The rows of the tape once everything buffered is written too.
  function Settled(st: LoopState): Tape { InsertAll(st.rows, st.buffer) }

  lemma RecordsSnoc(ws: seq<Wire>, w: Wire)
    ensures RecordsIn(ws + [w]) == RecordsIn(ws) + if w.Complete? then [RecordOf(w.fill)] else []
    ensures RejectsIn(ws + [w]) == RejectsIn(ws) + if w.Incomplete? then [w.raw] else []
  {
    assert (ws + [w])[..|ws|] == ws;
  }

  lemma {:induction false} RecordsConcat(a: seq<Wire>, b: seq<Wire>)
    ensures RecordsIn(a + b) == RecordsIn(a) + RecordsIn(b)
    ensures RejectsIn(a + b) == RejectsIn(a) + RejectsIn(b)
    decreases |b|
  {
    if b == [] {
      assert a + b == a;
    } else {
      var front, w := b[..|b| - 1], b[|b| - 1];
      var ab := a + front;
      assert b == front + [w] && a + b == ab + [w];
      hide RecordsIn, RejectsIn;
      RecordsConcat(a, front);
      RecordsSnoc(ab, w);
      RecordsSnoc(front, w);
    }
  }

  // For every schedule of messages, failures and flushes, table and buffer together are the
  // fold of everything received, and every element is one record or one dead letter.
  lemma {:induction false} TapeTransparency(rows: Tape, start: real, ds: seq<Delivery>, flushSeconds: real)
    ensures var st := Run(LoopState([], start, rows, []), ds, flushSeconds);
            && Settled(st) == InsertAll(rows, RecordsIn(Wires(ds)))
            && st.dead == RejectsIn(Wires(ds))
            && |RecordsIn(Wires(ds))| + |st.dead| == |Wires(ds)|
  {
    if ds == [] {
    } else {
      var front, d := ds[..|ds| - 1], ds[|ds| - 1];
      TapeTransparency(rows, start, front, flushSeconds);
      var st := Run(LoopState([], start, rows, []), front, flushSeconds);
      if d.Message? {
        var more := RecordsIn(d.wires);
        RecordsConcat(Wires(front), d.wires);
        Split(st.rows, st.buffer, more);
        Split(rows, RecordsIn(Wires(front)), more);
        OneEach(d.wires);
        Flushed(st, d, flushSeconds);
      } else {
        assert Wires(ds) == Wires(front);
      }
    }
  }

  lemma Flushed(st: LoopState, d: Delivery, flushSeconds: real)
    requires d.Message?
    ensures Settled(Turn(st, d, flushSeconds)) == InsertAll(st.rows, st.buffer + RecordsIn(d.wires))
  {
  }

  lemma {:induction false} OneEach(ws: seq<Wire>)
    ensures |RecordsIn(ws)| + |RejectsIn(ws)| == |ws|
  {
    if ws == [] {
    } else {
      OneEach(ws[..|ws| - 1]);
    }
  }

  // What is buffered after a message is not yet due, and the table is written only when the
  // flush interval is over.
  lemma FlushedWhenDue(st: LoopState, wires: seq<Wire>, now: real, flushSeconds: real)
    ensures Turn(st, ReceiveFailed, flushSeconds) == st
    ensures var r := Turn(st, Message(wires, now), flushSeconds);
            && (r.buffer != [] ==> now - r.lastFlush < flushSeconds)
            && (r.rows != st.rows ==> r.buffer == [] && r.lastFlush == now && now - st.lastFlush >= flushSeconds)
            && (st.buffer != [] && now - st.lastFlush >= flushSeconds ==> r.buffer == [] && r.lastFlush == now)
  {
    hide RecordsIn, RejectsIn;
    if st.buffer != [] {
      assert (st.buffer + RecordsIn(wires))[0] == st.buffer[0];
    }
  }

  // --- What the tape holds -----------------------------------------------------------------

  predicate Offers(w: Wire, k: TapeKey) {
    w.Complete? && w.fill.trade.symbol == k.symbol && w.fill.trade.ts == k.ts && w.fill.id == k.id
  }

  predicate FirstOffer(ws: seq<Wire>, k: TapeKey, i: int) {
    0 <= i < |ws| && Offers(ws[i], k) && forall j :: 0 <= j < i ==> !Offers(ws[j], k)
  }

  lemma {:induction false} Taped(rows: Tape, ws: seq<Wire>, k: TapeKey)
    ensures var tape := InsertAll(rows, RecordsIn(ws));
            && (k in rows ==> k in tape && tape[k] == rows[k])
            && (k in tape <==> k in rows || exists i :: 0 <= i < |ws| && Offers(ws[i], k))
            && (k in tape && k !in rows ==> exists i :: FirstOffer(ws, k, i) && TapedAs(tape[k], ws[i]))
  {
    if ws == [] {
    } else {
      var front, n := ws[..|ws| - 1], |ws| - 1;
      assert forall i :: 0 <= i < n ==> front[i] == ws[i];
      Taped(rows, front, k);
      var tape := InsertAll(rows, RecordsIn(front));
      TapedSnoc(rows, ws, k);
      hide InsertAll, RecordsIn, Offers, TapedAs;
      if k in tape && k !in rows {
        var i :| FirstOffer(front, k, i) && TapedAs(tape[k], front[i]);
        assert FirstOffer(ws, k, i);
      } else if Offers(ws[n], k) && k !in rows {
        assert FirstOffer(ws, k, n);
      }
    }
  }

  predicate TapedAs(v: TapeValue, w: Wire) {
    w.Complete? && v == TapeValue(w.fill.side, w.fill.trade.price, w.fill.trade.qty)
  }

  lemma TapedSnoc(rows: Tape, ws: seq<Wire>, k: TapeKey)
    requires ws != []
    ensures var tape, next, w := InsertAll(rows, RecordsIn(ws[..|ws| - 1])), InsertAll(rows, RecordsIn(ws)), ws[|ws| - 1];
            && (k in tape ==> k in next && next[k] == tape[k])
            && (k !in tape ==> (k in next <==> Offers(w, k)))
            && (k !in tape && k in next ==> TapedAs(next[k], w))
  {
    var rs, w := RecordsIn(ws[..|ws| - 1]), ws[|ws| - 1];
    if w.Complete? {
      var r := RecordOf(w.fill);
      assert RecordsIn(ws) == rs + [r] && (rs + [r])[..|rs|] == rs;
      assert InsertAll(rows, rs + [r]) == Insert(InsertAll(rows, rs), r);
      assert Offers(w, k) <==> k == r.key;
    } else {
      assert RecordsIn(ws) == rs;
    }
  }

  // For every schedule the tape holds every complete trade under its symbol, time and id, as
  // side, price and quantity of the first such trade unless the row was there before, and
  // no other rows; the dead letters are the incomplete elements.
  lemma TapeHolds(rows: Tape, start: real, ds: seq<Delivery>, flushSeconds: real)
    ensures var st, ws := Run(LoopState([], start, rows, []), ds, flushSeconds), Wires(ds);
            var tape := Settled(st);
            && (forall k :: k in rows ==> k in tape && tape[k] == rows[k])
            && (forall w :: w in ws && w.Complete? ==> TapeKey(w.fill.trade.symbol, w.fill.trade.ts, w.fill.id) in tape)
            && (forall k :: k in tape && k !in rows ==> exists i ::
                  && FirstOffer(ws, k, i)
                  && tape[k] == TapeValue(ws[i].fill.side, ws[i].fill.trade.price, ws[i].fill.trade.qty))
            && (forall raw :: raw in st.dead <==> Incomplete(raw) in ws)
  {
    TapeTransparency(rows, start, ds, flushSeconds);
    var ws := Wires(ds);
    RejectsAre(ws);
    hide InsertAll, RecordsIn, Run, Wires, RejectsIn;
    forall k ensures var tape := InsertAll(rows, RecordsIn(ws));
      && (k in rows ==> k in tape && tape[k] == rows[k])
      && (k in tape <==> k in rows || exists i :: 0 <= i < |ws| && Offers(ws[i], k))
      && (k in tape && k !in rows ==> exists i :: FirstOffer(ws, k, i) && TapedAs(tape[k], ws[i]))
    {
      Taped(rows, ws, k);
    }
    forall w | w in ws && w.Complete?
      ensures TapeKey(w.fill.trade.symbol, w.fill.trade.ts, w.fill.id) in InsertAll(rows, RecordsIn(ws))
    {
      var i :| 0 <= i < |ws| && ws[i] == w;
      assert Offers(ws[i], TapeKey(w.fill.trade.symbol, w.fill.trade.ts, w.fill.id));
    }
  }

  lemma {:induction false} RejectsAre(ws: seq<Wire>)
    ensures forall raw :: raw in RejectsIn(ws) <==> Incomplete(raw) in ws
  {
    if ws == [] {
    } else {
      var front, last := ws[..|ws| - 1], ws[|ws| - 1];
      RejectsAre(front);
      assert ws == front + [last];
    }
  }

  // --- Redelivery ----------------------------------------------------------------------

  lemma {:induction false} RecordMember(ws: seq<Wire>, w: Wire)
    requires w in ws && w.Complete?
    ensures RecordOf(w.fill) in RecordsIn(ws)
  {
    var front, last := ws[..|ws| - 1], ws[|ws| - 1];
    assert ws == front + [last];
    if w in front {
      RecordMember(front, w);
    }
  }

  lemma {:induction false} RecordOrigin(ws: seq<Wire>, i: nat) returns (w: Wire)
    requires i < |RecordsIn(ws)|
    ensures w in ws && w.Complete? && RecordsIn(ws)[i] == RecordOf(w.fill)
  {
    var front, last := ws[..|ws| - 1], ws[|ws| - 1];
    assert ws == front + [last];
    if i < |RecordsIn(front)| {
      w := RecordOrigin(front, i);
    } else {
      w := last;
    }
  }

  // Elements that are delivered again, after a reconnect say, leave the tape as it is.
  lemma RedeliveryLeavesTape(rows: Tape, ws: seq<Wire>, again: seq<Wire>)
    requires forall w :: w in again ==> w in ws
    ensures InsertAll(rows, RecordsIn(ws + again)) == InsertAll(rows, RecordsIn(ws))
  {
    var rs, more := RecordsIn(ws), RecordsIn(again);
    RecordsConcat(ws, again);
    Split(rows, rs, more);
    AllPresent(rows, rs);
    forall i | 0 <= i < |more| ensures more[i].key in InsertAll(rows, rs) {
      var w := RecordOrigin(again, i);
      RecordMember(ws, w);
      var j :| 0 <= j < |rs| && rs[j] == more[i];
    }
    Absorbed(InsertAll(rows, rs), more);
  }

  lemma {:induction false} OfSymbolConcat(a: seq<LiveCandles.Trade>, b: seq<LiveCandles.Trade>, s: string)
    ensures LiveCandles.SumQty(MinuteRuns.OfSymbol(a + b, s)) ==
            LiveCandles.SumQty(MinuteRuns.OfSymbol(a, s)) + LiveCandles.SumQty(MinuteRuns.OfSymbol(b, s))
    decreases |b|
  {
    if b == [] {
      assert a + b == a;
    } else {
      var front, t := b[..|b| - 1], b[|b| - 1];
      OfSymbolConcat(a, front, s);
      assert (a + b)[..|a + b| - 1] == a + front;
      LiveCandles.SumSnoc(MinuteRuns.OfSymbol(a + front, s), t);
      LiveCandles.SumSnoc(MinuteRuns.OfSymbol(front, s), t);
    }
  }

  // The aggregator has no trade ids: any redelivery adds the volume of the trades delivered
  // again to what it puts out, while the tape stays as it is.
  lemma RedeliveryAddsToCandles(trades: seq<LiveCandles.Trade>, again: seq<LiveCandles.Trade>, s: string)
    ensures MinuteRuns.SumVolume(MinuteRuns.EmittedFor(LiveCandles.Emitted(trades + again), s)) +
            MinuteRuns.Held(LiveCandles.PartialAfter(trades + again), s) ==
            MinuteRuns.SumVolume(MinuteRuns.EmittedFor(LiveCandles.Emitted(trades), s)) +
            MinuteRuns.Held(LiveCandles.PartialAfter(trades), s) +
            LiveCandles.SumQty(MinuteRuns.OfSymbol(again, s))
  {
    MinuteRuns.VolumeConserved(trades, s);
    MinuteRuns.VolumeConserved(trades + again, s);
    OfSymbolConcat(trades, again, s);
  }
}
