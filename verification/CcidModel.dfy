/** CCID framing and dispatch (USB CCID Rev 1.1, sections 6.1 and 6.2) as functions of values. */
module CcidModel {
  import opened Bytes
  import opened PivModel

  const HEADER_LEN := 10
  const BUF_SIZE := 512

  const ICC_POWER_ON: byte := 0x62
  const ICC_POWER_OFF: byte := 0x63
  const GET_SLOT_STATUS: byte := 0x65
  const XFR_BLOCK: byte := 0x6F
  const ABORT: byte := 0x72
  const SET_PARAMETERS: byte := 0x61
  const SET_DATA_RATE: byte := 0x73

  const DATA_BLOCK: byte := 0x80
  const SLOT_STATUS: byte := 0x81
  const PARAMETERS: byte := 0x82
  const DATA_RATE: byte := 0x84

  const CMD_OK: byte := 0x00
  const CMD_FAILED: byte := 0x40
  const ICC_ACTIVE: byte := 0x00
  const ICC_INACTIVE: byte := 0x01

  const ATR: seq<byte> := [0x3B, 0x10, 0x01, 0x11]

  /** The static variables of the driver; `tx` is the whole transmit buffer. */
  datatype Ccid = Ccid(powered: bool, pending: bool, responseLen: nat, tx: seq<byte>) {
    predicate WellFormed() {
      |tx| == BUF_SIZE && responseLen <= BUF_SIZE
    }

    /** Leaves a response in the transmit buffer for the sender to pick up. */
    function Respond(frame: seq<byte>): Ccid
      requires WellFormed() && |frame| <= BUF_SIZE
    {
      this.(pending := true, responseLen := |frame|, tx := Splice(tx, 0, frame))
    }

    function Reset(): Ccid {
      this.(powered := false, pending := false)
    }
  }

  const BOOT_CCID := Ccid(false, false, 0, seq(BUF_SIZE, _ => 0))

  // ---- frames ----

  /** The packed 10-octet header: type, dwLength, slot 0, sequence number, three octets that depend on the type. */
  function Header(mtype: byte, dwLength: nat, bSeq: byte, s0: byte, s1: byte, s2: byte): (h: seq<byte>)
    ensures |h| == HEADER_LEN
  {
    [mtype] + Le32(dwLength) + [0, bSeq, s0, s1, s2]
  }

  predicate IsFrame(m: seq<byte>) {
    HEADER_LEN <= |m|
  }

  function MessageType(m: seq<byte>): byte
    requires IsFrame(m)
  {
    m[0]
  }

  function DwLength(m: seq<byte>): (n: nat)
    requires IsFrame(m)
    ensures n < 0x1_0000_0000
  {
    FromLe32(m[1..5])
  }

  function SeqNumber(m: seq<byte>): byte
    requires IsFrame(m)
  {
    m[6]
  }

  function IccStatus(powered: bool): byte {
    if powered then ICC_ACTIVE else ICC_INACTIVE
  }

  function DataBlock(powered: bool, bSeq: byte, cmdStatus: byte, error: byte, data: seq<byte>): seq<byte>
    requires cmdStatus == CMD_OK || cmdStatus == CMD_FAILED
  {
    Header(DATA_BLOCK, |data|, bSeq, cmdStatus + IccStatus(powered), error, 0) + data
  }

  function SlotStatus(powered: bool, bSeq: byte, cmdStatus: byte): seq<byte>
    requires cmdStatus == CMD_OK || cmdStatus == CMD_FAILED
  {
    Header(SLOT_STATUS, 0, bSeq, cmdStatus + IccStatus(powered), 0, 0)
  }

  // ---- dispatch ----

  datatype Handled = Handled(ccid: Ccid, card: Card) {
    predicate WellFormed() {
      ccid.WellFormed() && card.WellFormed()
    }
  }

  /** The length test of XfrBlock, with the 32-bit sum the code forms. */
  predicate XfrLengthAccepted(dwLength: nat, n: nat) {
    dwLength != 0 && (HEADER_LEN + dwLength) % 0x1_0000_0000 <= n
  }

  function XfrRequest(rx: seq<byte>, now: nat, pk: seq<byte>): (q: Request)
    requires |rx| == BUF_SIZE && |pk| <= 72
    ensures q.Legal()
  {
    Request(rx[HEADER_LEN..], DwLength(rx), BUF_SIZE - HEADER_LEN, now, pk)
  }

  function XfrBlock(c: Ccid, card: Card, rx: seq<byte>, n: nat, now: nat, pk: seq<byte>): (h: Handled)
    requires c.WellFormed() && card.WellFormed() && |rx| == BUF_SIZE && |pk| <= 72
    ensures h.WellFormed()
  {
    if !c.powered || !XfrLengthAccepted(DwLength(rx), n)
    then Handled(c.Respond(DataBlock(c.powered, SeqNumber(rx), CMD_FAILED, 0x01, [])), card)
    else
      var o := ProcessApdu(card, XfrRequest(rx, now, pk));
      Handled(c.Respond(Header(DATA_BLOCK, |o.reply|, SeqNumber(rx), CMD_OK, 0, 0) + o.reply), o.card)
  }

  /** What SetParameters sends back: the parameters if the message holds them, else what the buffer held before. */
  function ParametersBody(c: Ccid, rx: seq<byte>, n: nat): (body: seq<byte>)
    requires c.WellFormed() && |rx| == BUF_SIZE && n <= BUF_SIZE
    ensures HEADER_LEN + |body| <= BUF_SIZE
  {
    var len := if DwLength(rx) > BUF_SIZE - HEADER_LEN then 0 else DwLength(rx);
    if 0 < len && HEADER_LEN + len <= n then rx[HEADER_LEN..HEADER_LEN + len] else c.tx[HEADER_LEN..HEADER_LEN + len]
  }

  function DataRateBody(rx: seq<byte>, n: nat): (body: seq<byte>)
    requires |rx| == BUF_SIZE
    ensures |body| == 8
  {
    if DwLength(rx) >= 8 && HEADER_LEN + 8 <= n then rx[HEADER_LEN..HEADER_LEN + 8]
    else Le32(0x0DFC) + Le32(0x25CD)
  }

  /** SetParameters and SetDataRate, which send back a body and do not look at the power state. */
  function Echo(c: Ccid, rx: seq<byte>, n: nat): (c': Ccid)
    requires c.WellFormed() && |rx| == BUF_SIZE && n <= BUF_SIZE
    ensures c'.WellFormed()
  {
    var bSeq := SeqNumber(rx);
    if MessageType(rx) == SET_PARAMETERS then
      var body := ParametersBody(c, rx, n);
      c.Respond(Header(PARAMETERS, |body|, bSeq, CMD_OK, 0, rx[9]) + body)
    else
      c.Respond(Header(DATA_RATE, 8, bSeq, CMD_OK, 0, 0) + DataRateBody(rx, n))
  }

  /** The commands about the slot itself, and those the reader does not know. */
  function SlotCommand(c: Ccid, rx: seq<byte>): (c': Ccid)
    requires c.WellFormed() && |rx| == BUF_SIZE
    ensures c'.WellFormed()
  {
    var t, bSeq := MessageType(rx), SeqNumber(rx);
    if t == ICC_POWER_ON then c.(powered := true).Respond(DataBlock(true, bSeq, CMD_OK, 0, ATR))
    else if t == ICC_POWER_OFF then c.(powered := false).Respond(SlotStatus(false, bSeq, CMD_OK))
    else if t == GET_SLOT_STATUS || t == ABORT then c.Respond(SlotStatus(c.powered, bSeq, CMD_OK))
    else c.Respond(SlotStatus(c.powered, bSeq, CMD_FAILED))
  }

  /** `_process_message` for a message whose `n` octets are the first in the receive buffer. */
  function ProcessMessage(c: Ccid, card: Card, rx: seq<byte>, n: nat, now: nat, pk: seq<byte>): (h: Handled)
    requires c.WellFormed() && card.WellFormed() && |rx| == BUF_SIZE && n <= BUF_SIZE && |pk| <= 72
    ensures h.WellFormed()
  {
    var t := MessageType(rx);
    if n < HEADER_LEN then Handled(c, card)
    else if t == XFR_BLOCK then XfrBlock(c, card, rx, n, now, pk)
    else if t == SET_PARAMETERS || t == SET_DATA_RATE then Handled(Echo(c, rx, n), card)
    else Handled(SlotCommand(c, rx), if t == ICC_POWER_ON then card.(piv := PivInit()) else card)
  }
}
