/** The keyboard's 64-entry ring buffer, refining a bounded queue. */
module KeyboardDevice {
  import opened Words

  const CAPACITY := 64
  const REG_STATUS := 0
  const REG_DATA := 4
  const KBD_BASE_ADDR: u32 := 0x0A00_1000

  /** Where the entry i places after `head` is stored. */
  function Slot(head: nat, i: nat): (s: nat)
    requires head < CAPACITY && i <= CAPACITY
    ensures s < CAPACITY
  {
    if head + i < CAPACITY then head + i else head + i - CAPACITY
  }

  /** What a register read answers, and the queue it leaves. */
  datatype Answer = Answer(value: u32, queue: seq<byte>)

  /** The status register reads 1 while a byte is pending; the data register delivers the oldest one, or 0. */
  function Respond(queue: seq<byte>, off: nat): Answer {
    if off == REG_STATUS then Answer(if queue != [] then 1 else 0, queue)
    else if off == REG_DATA && queue != [] then Answer(queue[0], queue[1..])
    else Answer(0, queue)
  }

  class Keyboard {
    var base: u32
    const fifo: array<byte>
    var head: nat
    var tail: nat
    var count: nat
    var present: bool

    constructor ()
      ensures Valid() && fresh(fifo) && Queue() == [] && !present
    {
      base := 0;
      fifo := new byte[CAPACITY](i => 0);
      head, tail, count, present := 0, 0, 0, false;
    }

    ghost predicate Valid()
      reads this
    {
      && fifo.Length == CAPACITY
      && head < CAPACITY && tail < CAPACITY && count <= CAPACITY
      && tail == Slot(head, count)
      && (!present ==> count == 0)
      && (present ==> base != 0)
    }

    ghost function Queue(): (q: seq<byte>)
      requires Valid()
      reads this, fifo
      ensures |q| == count
    {
      seq(count, i requires 0 <= i < count && Valid() reads this, fifo => fifo[Slot(head, i)])
    }

    method Clear()
      requires fifo.Length == CAPACITY
      modifies fifo, `head, `tail, `count
      ensures head == tail == count == 0
    {
      for i := 0 to CAPACITY {
        fifo[i] := 0;
      }
      head, tail, count := 0, 0, 0;
    }

    method Init(b: u32)
      requires fifo.Length == CAPACITY && b != 0
      modifies this, fifo
      ensures Valid() && Queue() == [] && base == b && present
    {
      Clear();
      base, present := b, true;
    }

    method Reset()
      requires Valid()
      modifies this, fifo
      ensures Valid() && Queue() == [] && present == old(present)
      ensures base == if old(base) != 0 then old(base) else KBD_BASE_ADDR
    {
      Clear();
      base := if base != 0 then base else KBD_BASE_ADDR;
    }

    /** A byte is refused exactly when 64 are pending. */
    method Push(ch: byte) returns (ok: bool)
      requires Valid()
      modifies this, fifo
      ensures Valid() && present && base == if old(present) then old(base) else KBD_BASE_ADDR
      ensures ok <==> |old(Queue())| < CAPACITY
      ensures Queue() == if ok then old(Queue()) + [ch] else old(Queue())
    {
      if !present { Init(KBD_BASE_ADDR); }
      if count >= CAPACITY { return false; }
      ghost var q := Queue();
      fifo[tail] := ch;
      tail := (tail + 1) % CAPACITY;
      count := count + 1;
      assert Queue() == q + [ch];
      return true;
    }

    /** Reading at an offset answers as the queue does. */
    method Read32(addr: u32) returns (value: u32)
      requires Valid()
      modifies this, fifo
      ensures Valid() && present && base == if old(present) then old(base) else KBD_BASE_ADDR
      ensures Answer(value, Queue()) == Respond(old(Queue()), Wrap(addr as int - base))
    {
      if !present { Init(KBD_BASE_ADDR); }
      var off := Wrap(addr as int - base);
      if off == REG_STATUS { return if count != 0 then 1 else 0; }
      if off == REG_DATA {
        if count == 0 { return 0; }
        ghost var q := Queue();
        var ch := fifo[head];
        assert ch == q[0];
        head := (head + 1) % CAPACITY;
        count := count - 1;
        assert Queue() == q[1..];
        return ch;
      }
      return 0;
    }
  }

  // ---- whole traces ----

  datatype Event = Pressed(ch: byte) | StatusRead | DataRead

  /** A queue of at most 64 bytes, the bytes it has accepted and the bytes it has delivered. */
  datatype Log = Log(queue: seq<byte>, accepted: seq<byte>, delivered: seq<byte>)

  function Next(l: Log, e: Event): Log {
    match e
    case Pressed(ch) => if |l.queue| < CAPACITY then l.(queue := l.queue + [ch], accepted := l.accepted + [ch]) else l
    case StatusRead => l
    case DataRead => if l.queue != [] then l.(queue := l.queue[1..], delivered := l.delivered + [l.queue[0]]) else l
  }

  function Trace(l: Log, events: seq<Event>): Log
    decreases |events|
  {
    if events == [] then l else Trace(Next(l, events[0]), events[1..])
  }

  /** Over any trace, the delivered bytes followed by the pending ones are the accepted bytes, in order. */
  lemma {:induction false} NothingLostOrReordered(l: Log, events: seq<Event>)
    requires l.delivered + l.queue == l.accepted && |l.queue| <= CAPACITY
    ensures var t := Trace(l, events); t.delivered + t.queue == t.accepted && |t.queue| <= CAPACITY
    decreases |events|
  {
    if events == [] {
    } else {
      var n := Next(l, events[0]);
      assert n.delivered + n.queue == n.accepted by {
        if events[0].Pressed? { assert l.delivered + (l.queue + [events[0].ch]) == l.accepted + [events[0].ch]; }
        if events[0].DataRead? && l.queue != [] {
          assert (l.delivered + [l.queue[0]]) + l.queue[1..] == l.delivered + l.queue;
        }
      }
      NothingLostOrReordered(n, events[1..]);
    }
  }

  /** The device driven through a trace: what it accepts and delivers is what the queue does. */
  method Drive(k: Keyboard, events: seq<Event>) returns (accepted: seq<byte>, delivered: seq<byte>)
    requires k.Valid() && k.present
    modifies k, k.fifo
    ensures k.Valid()
    ensures Log(k.Queue(), accepted, delivered) == Trace(Log(old(k.Queue()), [], []), events)
  {
    accepted, delivered := [], [];
    for i := 0 to |events|
      invariant k.Valid() && k.present
      invariant Trace(Log(k.Queue(), accepted, delivered), events[i..]) == Trace(Log(old(k.Queue()), [], []), events)
    {
      assert events[i..][0] == events[i] && events[i..][1..] == events[i + 1..];
      ghost var before := Log(k.Queue(), accepted, delivered);
      match events[i] {
      case Pressed(ch) =>
        var ok := k.Push(ch);
        if ok { accepted := accepted + [ch]; }
      case StatusRead =>
        var status := k.Read32(k.base);
      case DataRead =>
        var pending := k.count != 0;
        assert Wrap(Wrap(k.base as int + REG_DATA) as int - k.base) == REG_DATA;
        var ch := k.Read32(Wrap(k.base as int + REG_DATA));
        if pending { delivered := delivered + [ch]; }
      }
      assert Log(k.Queue(), accepted, delivered) == Next(before, events[i]);
    }
  }
}
