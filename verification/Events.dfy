/** Everything that can happen to the running firmware, one indivisible step at a time. */
module Events {
  import opened Bytes

  datatype Action =
    // inside tud_task
    | Receive(msg: seq<byte>, pk: seq<byte>)  // a bulk-OUT transfer completes; pk: what the foreign signer would answer
    | BusReset
    | Unmount
    | UsbIdle                                 // tud_task returns
    // ccid_task
    | SendTask(claimed: bool)
    // button_was_pressed, between any two of whose steps the interrupt may run
    | PollTest | PollReadLow | PollReadHigh | PollReadNow | PollDecide | PollClear | PollPin(level: nat)
    // dev_state_tick
    | Tick
    // not in program order: the GPIO interrupt, and the bulk-IN endpoint finishing a transfer
    | Edge(gpio: nat)
    | SendDone

  /** An action at a reading of the microsecond clock. */
  datatype Event = Event(at: nat, act: Action)
}
