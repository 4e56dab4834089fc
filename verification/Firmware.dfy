/** The firmware as objects: the modules wired together, one method per step of the loop, and the loop itself. */
module Firmware {
  import opened Bytes
  import opened Events
  import opened DeviceState
  import opened KeyStore
  import opened PivApplet
  import opened CcidModel
  import opened Machine
  import Button
  import CcidDriver

  class System {
    const dev: Device
    const crypto: Backend
    const applet: Applet
    const ccid: CcidDriver.Driver
    const button: Button.Driver
    var phase: Phase
    var inFlight: Option<nat>  // kept by the endpoint hardware
    ghost var clock: nat

    ghost predicate Valid()
      reads this, ccid, applet, crypto
    {
      && ccid.applet == applet && applet.dev == dev && applet.crypto == crypto
      && ccid.Valid()
      && (inFlight.Some? ==> inFlight.value <= BUF_SIZE)
    }

    ghost function Footprint(): set<object>
      reads this, ccid, applet
    {
      {this, ccid, ccid.rx, ccid.tx, applet, applet.chainBuf, applet.certObj, dev, crypto, button}
    }

    ghost function State(): (w: World)
      requires Valid()
      reads this, ccid, ccid.rx, ccid.tx, applet, applet.chainBuf, dev, crypto, crypto.certDer, button
      ensures w.WellFormed()
    {
      World(clock, phase, applet.Model(), ccid.Model(), ccid.rx[..], button.Model(), inFlight)
    }

    /** The boot sequence of `main` once the backend is up. */
    constructor (backend: Backend)
      requires backend.Valid()
      ensures Valid() && crypto == backend && fresh(Footprint() - {crypto})
      ensures State() == Boot(backend.Model())
    {
      var d := new Device();
      var a := new Applet(d, backend);
      var c := new CcidDriver.Driver(a);
      var b := new Button.Driver();
      dev, crypto, applet, ccid, button := d, backend, a, c, b;
      phase, inFlight, clock := Usb, None, 0;
    }

    method OnReceive(now: nat, msg: seq<byte>, pk: seq<byte>)
      requires Valid() && State().Enabled(Event(now, Receive(msg, pk)))
      modifies Footprint()
      ensures Valid() && State() == old(State()).Step(Event(now, Receive(msg, pk)))
    {
      ccid.Received(msg, now, pk);
      clock := now;
    }

    /** `_ccid_reset`; the controller drops the transfer it was busy with. */
    method OnBusReset(now: nat)
      requires Valid() && State().Enabled(Event(now, BusReset))
      modifies ccid, this
      ensures Valid() && State() == old(State()).Step(Event(now, BusReset))
    {
      ccid.Reset();
      inFlight := None;
      clock := now;
    }

    /** `tud_umount_cb`. */
    method OnUnmount(now: nat)
      requires Valid() && State().Enabled(Event(now, Unmount))
      modifies dev, this
      ensures Valid() && State() == old(State()).Step(Event(now, Unmount))
    {
      dev.Init();
      clock := now;
    }

    method CcidTask(now: nat, claimed: bool)
      requires Valid() && State().Enabled(Event(now, SendTask(claimed)))
      modifies ccid, this
      ensures Valid() && State() == old(State()).Step(Event(now, SendTask(claimed)))
    {
      var sent, len := ccid.Task(claimed);
      if sent {
        inFlight := Some(len);
      }
      phase := Poll;
      clock := now;
    }

    /** The operands of the time difference are read. */
    method ButtonRead(now: nat, act: Action)
      requires Valid() && State().Enabled(Event(now, act))
      requires act.PollReadLow? || act.PollReadHigh? || act.PollReadNow?
      modifies button, this
      ensures Valid() && State() == old(State()).Step(Event(now, act))
    {
      match act {
        case PollReadLow => button.PollReadLow(now);
        case PollReadHigh => button.PollReadHigh(now);
        case PollReadNow => button.PollReadNow(now);
      }
      clock := now;
    }

    /** The flag is cleared. */
    method ButtonClear(now: nat)
      requires Valid() && State().Enabled(Event(now, PollClear))
      modifies button, this
      ensures Valid() && State() == old(State()).Step(Event(now, PollClear))
    {
      button.PollClear(now);
      clock := now;
    }

    /** The micro-steps of `button_was_pressed` that may return. */
    method ButtonTest(now: nat, act: Action)
      requires Valid() && State().Enabled(Event(now, act))
      requires act.PollTest? || act.PollDecide?
      modifies button, this
      ensures Valid() && State() == old(State()).Step(Event(now, act))
    {
      var over;
      match act {
        case PollTest => over := button.PollTest(now);
        case PollDecide => over := button.PollDecide(now);
      }
      phase := if over then Ticking else Poll;
      clock := now;
    }

    /** The last micro-step samples the pin and notifies the state machine. */
    method ButtonConfirm(now: nat, level: nat)
      requires Valid() && State().Enabled(Event(now, PollPin(level)))
      modifies button, dev, this
      ensures Valid() && State() == old(State()).Step(Event(now, PollPin(level)))
    {
      var pressed := button.PollPin(now, level);
      if pressed {
        dev.ButtonPressed(now);
      }
      phase := Ticking;
      clock := now;
    }

    method DevStateTick(now: nat)
      requires Valid() && State().Enabled(Event(now, Tick))
      modifies dev, this
      ensures Valid() && State() == old(State()).Step(Event(now, Tick))
    {
      dev.Tick(now);
      phase := Usb;
      clock := now;
    }

    method OnGpioIrq(now: nat, gpio: nat)
      requires Valid() && State().Enabled(Event(now, Edge(gpio)))
      modifies button, this
      ensures Valid() && State() == old(State()).Step(Event(now, Edge(gpio)))
    {
      button.GpioIrq(gpio, now);
      clock := now;
    }

    method Execute(e: Event)
      requires Valid() && State().Enabled(e)
      modifies Footprint()
      ensures Valid() && State() == old(State()).Step(e)
    {
      match e.act
      case Receive(msg, pk) => OnReceive(e.at, msg, pk);
      case BusReset => OnBusReset(e.at);
      case Unmount => OnUnmount(e.at);
      case UsbIdle => phase := Send; clock := e.at;
      case SendTask(claimed) => CcidTask(e.at, claimed);
      case Tick => DevStateTick(e.at);
      case Edge(gpio) => OnGpioIrq(e.at, gpio);
      case SendDone => inFlight := None; clock := e.at;
      case PollPin(level) => ButtonConfirm(e.at, level);
      case PollTest => ButtonTest(e.at, e.act);
      case PollDecide => ButtonTest(e.at, e.act);
      case PollClear => ButtonClear(e.at);
      case _ => ButtonRead(e.at, e.act);
    }

    /**
     The loop of `main` under any schedule: from boot, executing `es` goes exactly through the states of the run
     with those events.
     */
    method RunLoop(es: seq<Event>, ghost ws: seq<World>)
      requires Valid() && IsRun(ws, es) && State() == ws[0]
      modifies Footprint()
      ensures Valid() && State() == ws[|es|]
    {
      for i := 0 to |es|
        invariant Valid() && State() == ws[i]
      {
        assert Steps(ws, es, i);
        Execute(es[i]);
      }
    }
  }
}
