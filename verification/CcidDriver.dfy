/** The CCID driver on its two transfer buffers: dispatcher, transfer callback, reset, and the sender task. */
module CcidDriver {
  import opened Bytes
  import opened KeyStore
  import opened PivApplet
  import opened CcidModel

  class Driver {
    var iccPowered: bool
    var responsePending: bool
    var responseLen: nat
    const rx: array<byte>
    const tx: array<byte>
    const applet: Applet

    ghost predicate Valid()
      reads this, applet, applet.crypto
    {
      && rx.Length == tx.Length == BUF_SIZE && responseLen <= BUF_SIZE
      && applet.Valid() && applet.Buffers(rx, tx)
    }

    ghost function Model(): (c: Ccid)
      requires Valid()
      reads this, tx, applet, applet.crypto
      ensures c.WellFormed()
    {
      Ccid(iccPowered, responsePending, responseLen, tx[..])
    }

    constructor (applet: Applet)
      requires applet.Valid()
      ensures Valid() && this.applet == applet && fresh(rx) && fresh(tx)
      ensures Model() == BOOT_CCID && rx[..] == seq(BUF_SIZE, _ => 0)
    {
      this.applet := applet;
      iccPowered, responsePending, responseLen := false, false, 0;
      rx := new byte[BUF_SIZE](_ => 0);
      tx := new byte[BUF_SIZE](_ => 0);
    }

    /** `_ccid_reset`. */
    method Reset()
      requires Valid()
      modifies this
      ensures Valid() && Model() == old(Model()).Reset()
    {
      iccPowered := false;
      responsePending := false;
    }

    /** Hands `len` octets of the transmit buffer to the sender. */
    method SetPending(len: nat)
      requires Valid() && len <= BUF_SIZE
      modifies this
      ensures Valid() && Model() == old(Model()).(pending := true, responseLen := len)
    {
      responseLen := len;
      responsePending := true;
    }

    method MakeSlotStatus(bSeq: byte, cmdStatus: byte) returns (len: nat)
      requires Valid() && (cmdStatus == CMD_OK || cmdStatus == CMD_FAILED)
      modifies tx
      ensures len == HEADER_LEN && tx[..] == Splice(old(tx[..]), 0, SlotStatus(iccPowered, bSeq, cmdStatus))
    {
      MemCpy(tx, 0, Header(SLOT_STATUS, 0, bSeq, cmdStatus + IccStatus(iccPowered), 0, 0));
      len := HEADER_LEN;
    }

    /** Header and body, one behind the other. */
    method PutFrame(header: seq<byte>, body: seq<byte>)
      requires Valid() && |header| == HEADER_LEN && HEADER_LEN + |body| <= BUF_SIZE
      modifies tx
      ensures tx[..] == Splice(old(tx[..]), 0, header + body)
    {
      SpliceSplice(tx[..], 0, header, body);
      MemCpy(tx, 0, header);
      if |body| > 0 {
        MemCpy(tx, HEADER_LEN, body);
      } else {
        assert header + body == header;
      }
    }

    method MakeDataBlock(bSeq: byte, cmdStatus: byte, error: byte, data: seq<byte>) returns (len: nat)
      requires Valid() && (cmdStatus == CMD_OK || cmdStatus == CMD_FAILED) && HEADER_LEN + |data| <= BUF_SIZE
      modifies tx
      ensures len == HEADER_LEN + |data|
      ensures tx[..] == Splice(old(tx[..]), 0, DataBlock(iccPowered, bSeq, cmdStatus, error, data))
    {
      var header := Header(DATA_BLOCK, |data|, bSeq, cmdStatus + IccStatus(iccPowered), error, 0);
      assert header + data == DataBlock(iccPowered, bSeq, cmdStatus, error, data);
      PutFrame(header, data);
      len := HEADER_LEN + |data|;
    }

    /** A header in front of a body that is already in the transmit buffer. */
    method PrependHeader(header: seq<byte>, ghost was: seq<byte>, ghost body: seq<byte>)
      requires Valid() && |header| == HEADER_LEN && |was| == BUF_SIZE && HEADER_LEN + |body| <= BUF_SIZE
      requires tx[..] == Splice(was, HEADER_LEN, body)
      modifies tx
      ensures tx[..] == Splice(was, 0, header + body)
    {
      MemCpy(tx, 0, header);
      assert Splice(Splice(was, HEADER_LEN, body), 0, header) == Splice(was, 0, header + body);
    }

    method HandleXfrBlock(n: nat, bSeq: byte, now: nat, pk: seq<byte>)
      requires Valid() && n <= BUF_SIZE && |pk| <= MAX_SIGNATURE && bSeq == SeqNumber(rx[..])
      modifies this, tx, applet, applet.chainBuf, applet.certObj, applet.dev, applet.crypto`signed
      ensures Valid()
      ensures Handled(Model(), applet.Model()) ==
              CcidModel.XfrBlock(old(Model()), old(applet.Model()), rx[..], n, now, pk)
    {
      if !iccPowered {
        var len := MakeDataBlock(bSeq, CMD_FAILED, 0x01, []);
        SetPending(len);
        return;
      }
      var apduLen := DwLength(rx[..]);
      if apduLen == 0 || (HEADER_LEN + apduLen) % 0x1_0000_0000 > n {
        var len := MakeDataBlock(bSeq, CMD_FAILED, 0x01, []);
        SetPending(len);
        return;
      }
      TransferApdu(apduLen, bSeq, now, pk);
    }

    method TransferApdu(apduLen: nat, bSeq: byte, now: nat, pk: seq<byte>)
      requires Valid() && iccPowered && |pk| <= MAX_SIGNATURE
      requires apduLen == DwLength(rx[..]) && bSeq == SeqNumber(rx[..])
      modifies this, tx, applet, applet.chainBuf, applet.certObj, applet.dev, applet.crypto`signed
      ensures Valid()
      ensures var o := PivModel.ProcessApdu(old(applet.Model()), XfrRequest(rx[..], now, pk));
              && applet.Model() == o.card
              && HEADER_LEN + |o.reply| <= BUF_SIZE
              && Model() == old(Model()).Respond(Header(DATA_BLOCK, |o.reply|, bSeq, CMD_OK, 0, 0) + o.reply)
    {
      ghost var was := tx[..];
      ghost var q := XfrRequest(rx[..], now, pk);
      assert rx[..][HEADER_LEN..] == rx[HEADER_LEN..];
      ghost var o := PivModel.ProcessApdu(applet.Model(), q);
      var len := applet.ProcessApdu(rx, HEADER_LEN, apduLen, tx, HEADER_LEN, BUF_SIZE - HEADER_LEN, now, pk, q);
      PrependHeader(Header(DATA_BLOCK, len, bSeq, CMD_OK, 0, 0), was, o.reply);
      SetPending(HEADER_LEN + len);
    }

    method HandleSetParameters(n: nat, bSeq: byte)
      requires Valid() && n <= BUF_SIZE
      modifies this, tx
      ensures Valid()
      ensures var body := ParametersBody(old(Model()), rx[..], n);
              HEADER_LEN + |body| <= BUF_SIZE &&
              Model() == old(Model()).Respond(Header(PARAMETERS, |body|, bSeq, CMD_OK, 0, rx[9]) + body)
    {
      ghost var body := ParametersBody(Model(), rx[..], n);
      var len := DwLength(rx[..]);
      if len > BUF_SIZE - HEADER_LEN {
        len := 0;
      }
      assert |body| == len;
      PutParameters(len, n, Header(PARAMETERS, len, bSeq, CMD_OK, 0, rx[9]), body);
      SetPending(HEADER_LEN + len);
    }

    /** The header, and behind it the parameters if the message holds them. */
    method PutParameters(len: nat, n: nat, header: seq<byte>, ghost body: seq<byte>)
      requires Valid() && n <= BUF_SIZE && |header| == HEADER_LEN && |body| == len <= BUF_SIZE - HEADER_LEN
      requires body == if 0 < len && HEADER_LEN + len <= n then rx[HEADER_LEN..HEADER_LEN + len]
                       else tx[HEADER_LEN..HEADER_LEN + len]
      modifies tx
      ensures tx[..] == Splice(old(tx[..]), 0, header + body)
    {
      ghost var was := tx[..];
      MemCpy(tx, 0, header);
      if len > 0 && HEADER_LEN + len <= n {
        SpliceSplice(was, 0, header, body);
        MemCpy(tx, HEADER_LEN, rx[HEADER_LEN..HEADER_LEN + len]);
      } else {
        SpliceHead(was, header, body);
      }
    }

    method HandleSetDataRate(n: nat, bSeq: byte)
      requires Valid() && n <= BUF_SIZE
      modifies this, tx
      ensures Valid()
      ensures Model() == old(Model()).Respond(Header(DATA_RATE, 8, bSeq, CMD_OK, 0, 0) + DataRateBody(rx[..], n))
    {
      ghost var was := tx[..];
      var header := Header(DATA_RATE, 8, bSeq, CMD_OK, 0, 0);
      SpliceSplice(was, 0, header, DataRateBody(rx[..], n));
      MemCpy(tx, 0, header);
      if DwLength(rx[..]) >= 8 && HEADER_LEN + 8 <= n {
        assert rx[..][HEADER_LEN..HEADER_LEN + 8] == rx[HEADER_LEN..HEADER_LEN + 8];
        MemCpy(tx, HEADER_LEN, rx[HEADER_LEN..HEADER_LEN + 8]);
      } else {
        var clk, rate := Le32(0x0DFC), Le32(0x25CD);
        SpliceSplice(Splice(was, 0, header), HEADER_LEN, clk, rate);
        MemCpy(tx, HEADER_LEN, clk);
        MemCpy(tx, HEADER_LEN + 4, rate);
      }
      SetPending(HEADER_LEN + 8);
    }

    /** `_process_message`. */
    method ProcessMessage(n: nat, now: nat, pk: seq<byte>)
      requires Valid() && n <= BUF_SIZE && |pk| <= MAX_SIGNATURE
      modifies this, tx, applet, applet.chainBuf, applet.certObj, applet.dev, applet.crypto`signed
      ensures Valid()
      ensures Handled(Model(), applet.Model()) ==
              CcidModel.ProcessMessage(old(Model()), old(applet.Model()), rx[..], n, now, pk)
    {
      if n < HEADER_LEN {
        return;
      }
      var t, bSeq := rx[0], rx[6];
      if t == ICC_POWER_ON {
        iccPowered := true;
        applet.Init();
        var len := MakeDataBlock(bSeq, CMD_OK, 0, ATR);
        SetPending(len);
      } else if t == ICC_POWER_OFF {
        iccPowered := false;
        var len := MakeSlotStatus(bSeq, CMD_OK);
        SetPending(len);
      } else if t == GET_SLOT_STATUS || t == ABORT {
        var len := MakeSlotStatus(bSeq, CMD_OK);
        SetPending(len);
      } else if t == XFR_BLOCK {
        HandleXfrBlock(n, bSeq, now, pk);
      } else if t == SET_PARAMETERS {
        HandleSetParameters(n, bSeq);
      } else if t == SET_DATA_RATE {
        HandleSetDataRate(n, bSeq);
      } else {
        var len := MakeSlotStatus(bSeq, CMD_FAILED);
        SetPending(len);
      }
    }

    /** A bulk-OUT transfer of `msg` has completed: it is in the receive buffer, over what was there before. */
    method Received(msg: seq<byte>, now: nat, pk: seq<byte>)
      requires Valid() && |msg| <= BUF_SIZE && |pk| <= MAX_SIGNATURE
      modifies this, rx, tx, applet, applet.chainBuf, applet.certObj, applet.dev, applet.crypto`signed
      ensures Valid() && rx[..] == Splice(old(rx[..]), 0, msg)
      ensures Handled(Model(), applet.Model()) ==
              CcidModel.ProcessMessage(old(Model()), old(applet.Model()), rx[..], |msg|, now, pk)
    {
      MemCpy(rx, 0, msg);
      if |msg| >= HEADER_LEN {
        ProcessMessage(|msg|, now, pk);
      }
    }

    /** `ccid_task`; `claimed` is whether the bulk-IN endpoint could be claimed. */
    method Task(claimed: bool) returns (sent: bool, len: nat)
      requires Valid()
      modifies this
      ensures Valid() && sent == (old(responsePending) && claimed) && len == responseLen
      ensures Model() == if sent then old(Model()).(pending := false) else old(Model())
    {
      sent, len := false, responseLen;
      if !responsePending {
        return;
      }
      if !claimed {
        return;
      }
      responsePending := false;
      sent := true;
    }
  }
}
