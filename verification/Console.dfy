/** Keyboard to screen: the monitor polls the keyboard registers over the bus and edits its line. */
module Console {
  import opened Words
  import opened KeyboardDevice
  import opened Memory
  import opened EditorSpec
  import opened MonitorProgram

  const KEY_STATUS: u32 := KBD_BASE_ADDR

  lemma KeyRoute(ramSize: nat, uart: bool, disk: bool)
    ensures RouteOf(KEY_STATUS, ramSize, uart, disk) == Kbd && AlignDown(KEY_STATUS) == KEY_STATUS
    ensures RouteOf(KEY_STATUS + 4, ramSize, uart, disk) == Kbd && AlignDown(KEY_STATUS + 4) == KEY_STATUS + 4
    ensures Wrap(KEY_STATUS as int - KBD_BASE_ADDR) == REG_STATUS
    ensures Wrap(KEY_STATUS as int + 4 - KBD_BASE_ADDR) == REG_DATA
  {
  }

  /** Handling one more key extends the run by it. */
  lemma {:induction false} KeysAppend(e: Editor, keys: seq<byte>, clocks: seq<Clock>, key: byte, t: Clock)
    requires |clocks| == |keys|
    ensures Keys(e, keys + [key], clocks + [t]) == KeyStep(Keys(e, keys, clocks), key, t)
    decreases |keys|
  {
    hide KeyStep;
    if keys == [] {
      assert Keys(KeyStep(e, key, t), [], []) == KeyStep(e, key, t);
      assert (keys + [key])[1..] == [] && (clocks + [t])[1..] == [];
    } else {
      assert (keys + [key])[1..] == keys[1..] + [key] && (clocks + [t])[1..] == clocks[1..] + [t];
      KeysAppend(KeyStep(e, keys[0], clocks[0]), keys[1..], clocks[1..], key, t);
    }
  }

  /** One look at the status register and, when a key is ready, one read of the data register. */
  method PollOnce(bus: Bus) returns (ready: bool, key: byte)
    requires bus.Valid() && bus.keyboard.present && bus.keyboard.base == KBD_BASE_ADDR
    modifies bus.keyboard, bus.keyboard.fifo
    ensures bus.Valid() && bus.keyboard.present && bus.keyboard.base == KBD_BASE_ADDR
    ensures ready <==> old(bus.keyboard.Queue()) != []
    ensures bus.keyboard.Queue() == if ready then old(bus.keyboard.Queue())[1..] else []
    ensures ready ==> key == old(bus.keyboard.Queue())[0]
  {
    hide RouteOf, Wrap;
    KeyRoute(bus.ram.Length, bus.uartPresent, bus.disk.present);
    var r0 := bus.Read32(KEY_STATUS);
    if r0 % 2 == 0 { return false, 0; }
    var r2 := bus.Read32(KEY_STATUS + 4);
    return true, r2 % 256;
  }

  /** Polls until no key is pending or `halt` has run: every pending key, oldest first, goes through the line editor. */
  method PollKeys(m: Monitor, bus: Bus, clocks: seq<Clock>, ghost e: Editor) returns (handled: nat)
    requires m.Shows(e) && bus.Valid() && bus.ram == m.ram
    requires bus.keyboard.present && bus.keyboard.base == KBD_BASE_ADDR
    requires |clocks| >= |bus.keyboard.Queue()|
    modifies m, m.ram, bus.keyboard, bus.keyboard.fifo
    ensures bus.Valid() && handled <= |old(bus.keyboard.Queue())|
    ensures bus.keyboard.Queue() == old(bus.keyboard.Queue())[handled..]
    ensures m.Shows(Keys(e, old(bus.keyboard.Queue())[..handled], clocks[..handled]))
    ensures m.stopped || bus.keyboard.Queue() == []
    ensures m.Confined(old(m.ram[..]))
  {
    hide KeyStep, Keys, Mirrors, Monitor.Shows, Keyboard.Queue;
    ghost var q, now := bus.keyboard.Queue(), e;
    handled := 0;
    NoKeys(e);
    while !m.stopped
      invariant m.Shows(now) && bus.Valid() && handled <= |q|
      invariant bus.keyboard.present && bus.keyboard.base == KBD_BASE_ADDR
      invariant bus.keyboard.Queue() == q[handled..]
      invariant now == Keys(e, q[..handled], clocks[..handled])
      invariant m.Confined(old(m.ram[..]))
      decreases |q| - handled
    {
      label L:
      var ready, key := PollOnce(bus);
      if !ready { break; }
      m.HandleKey(key, clocks[handled], now);
      KeysAppend(e, q[..handled], clocks[..handled], q[handled], clocks[handled]);
      assert q[..handled] + [q[handled]] == q[..handled + 1];
      assert clocks[..handled] + [clocks[handled]] == clocks[..handled + 1];
      now := KeyStep(now, key, clocks[handled]);
      handled := handled + 1;
    }
  }

  lemma NoKeys(e: Editor)
    ensures Keys(e, [], []) == e
  {
  }
}
