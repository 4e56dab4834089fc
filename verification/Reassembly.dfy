/**
 Response chaining over whole runs: whatever else arrives between the chunks - other commands and messages, resets,
 power-offs, presses - what the applet has delivered of an object is a beginning of it and the chain holds the rest,
 until an IccPowerOn or a new chain.
 */
module Reassembly {
  import opened Bytes
  import opened Events
  import opened PivModel
  import opened CcidModel
  import opened Machine
  import opened Replies
  import opened Chaining
  import opened SafetyOfFirmware

  predicate IsPowerOn(e: Event) {
    e.act.Receive? && IsFrame(e.act.msg) && e.act.msg[0] == 0x62
  }

  /** A command that starts a chain is executed. */
  predicate StartsAt(w: World, e: Event)
    requires w.WellFormed() && w.Enabled(e)
  {
    ApduOf(w, e).Some? && StartsChain(w.card, ApduOf(w, e).value)
  }

  /** A GET RESPONSE is executed. */
  predicate Reads(w: World, e: Event)
    requires w.WellFormed() && w.Enabled(e)
  {
    ApduOf(w, e).Some? && ReadsChain(w.card, ApduOf(w, e).value)
  }

  /** The object of that chain. */
  function ObjectOf(w: World, e: Event): seq<byte>
    requires w.WellFormed() && w.Enabled(e) && StartsAt(w, e)
  {
    Found(w.card, ApduOf(w, e).value).value
  }

  /** What the command of an event does. */
  function OutcomeIn(w: World, e: Event): (o: Outcome)
    requires w.WellFormed() && w.Enabled(e) && ApduOf(w, e).Some?
    ensures 2 <= |o.reply|
  {
    ProcessApdu(w.card, ApduOf(w, e).value)
  }

  /** The octets that the reply to the command adds to the object, none for other events. */
  function ChunkIn(w: World, e: Event): seq<byte>
    requires w.WellFormed() && w.Enabled(e)
  {
    if Reads(w, e) || StartsAt(w, e) then Body(OutcomeIn(w, e).reply) else []
  }

  /** What each event delivers. */
  ghost function Chunks(ws: seq<World>, es: seq<Event>): (chunks: seq<seq<byte>>)
    requires IsRun(ws, es)
    ensures |chunks| == |es|
  {
    seq(|es|, k requires 0 <= k < |es| => assert Steps(ws, es, k); ChunkIn(ws[k], es[k]))
  }

  function Pivs(ws: seq<World>): (pivs: seq<Piv>)
    ensures |pivs| == |ws| && forall k :: 0 <= k < |ws| ==> pivs[k] == ws[k].card.piv
  {
    seq(|ws|, k requires 0 <= k < |ws| => ws[k].card.piv)
  }

  /** The chunks from `s` up to `k`, one behind the other. */
  function Joined(chunks: seq<seq<byte>>, s: nat, k: nat): seq<byte>
    requires s <= k <= |chunks|
  {
    if k == s then [] else Joined(chunks, s, k - 1) + chunks[k - 1]
  }

  /** What the events from `s` up to `k` have delivered. */
  ghost function Delivered(ws: seq<World>, es: seq<Event>, s: nat, k: nat): seq<byte>
    requires IsRun(ws, es) && s <= k <= |es|
  {
    Joined(Chunks(ws, es), s, k)
  }

  /** Event `m` neither powers the card on nor starts a chain. */
  ghost predicate GoesOn(ws: seq<World>, es: seq<Event>, m: nat)
    requires IsRun(ws, es) && m < |es|
  {
    Steps(ws, es, m) && !IsPowerOn(es[m]) && !StartsAt(ws[m], es[m])
  }

  /** Event `s` starts a chain for `obj`. */
  ghost predicate Begins(ws: seq<World>, es: seq<Event>, s: nat, obj: seq<byte>)
    requires IsRun(ws, es) && s < |es|
  {
    Steps(ws, es, s) && StartsAt(ws[s], es[s]) && ObjectOf(ws[s], es[s]) == obj
  }

  /** Between `s` and `k` no event ends the chain. */
  ghost predicate Uninterrupted(ws: seq<World>, es: seq<Event>, s: nat, k: nat)
    requires IsRun(ws, es) && s < k <= |es|
  {
    forall m :: s < m < k ==> GoesOn(ws, es, m)
  }

  /** What has been joined is a beginning of the object, and the chain holds the rest. */
  ghost predicate Reassembles(pivs: seq<Piv>, chunks: seq<seq<byte>>, s: nat, k: nat, obj: seq<byte>)
    requires s <= k <= |chunks| < |pivs|
  {
    var got := Joined(chunks, s, k);
    got <= obj && ChainIs(pivs[k], obj, |got|)
  }

  /** Step `k` keeps that up. */
  ghost predicate Advances(pivs: seq<Piv>, chunks: seq<seq<byte>>, obj: seq<byte>, k: nat)
    requires k < |chunks| < |pivs|
  {
    forall got :: got <= obj && ChainIs(pivs[k], obj, |got|) ==>
      got + chunks[k] <= obj && ChainIs(pivs[k + 1], obj, |got + chunks[k]|)
  }

  // ---- one event ----

  /** Apart from commands and power-on nothing touches the applet's chain. */
  lemma QuietKeepsPiv(w: World, e: Event)
    requires w.WellFormed() && w.Enabled(e) && ApduOf(w, e).None? && !IsPowerOn(e)
    ensures w.Step(e).card.piv == w.card.piv
  {
    if e.act.Receive? && IsFrame(e.act.msg) {
      assert Splice(w.rx, 0, e.act.msg)[0] == e.act.msg[0];
    }
  }

  lemma CommandSteps(w: World, e: Event)
    requires w.WellFormed() && w.Enabled(e) && ApduOf(w, e).Some?
    ensures w.Step(e).card == ProcessApdu(w.card, ApduOf(w, e).value).card
    ensures MAX_REPLY <= ApduOf(w, e).value.capacity
  {
    MessageDemands(w, e);
  }

  /** The reply has the next `n` octets of the object and the status for the rest. */
  predicate GivesNext(reply: seq<byte>, obj: seq<byte>, offset: nat, n: nat) {
    && offset + n <= |obj| && (offset < |obj| ==> 1 <= n)
    && reply == obj[offset..offset + n] + RestStatus(|obj| - offset, n)
  }

  /** GET RESPONSE, said of card and reply alone. */
  lemma CommandReads(card: Card, q: Request, o: Outcome, obj: seq<byte>, offset: nat) returns (n: nat)
    requires card.WellFormed() && q.Legal() && MAX_REPLY <= q.capacity && ReadsChain(card, q)
    requires o == ProcessApdu(card, q) && ChainIs(card.piv, obj, offset)
    ensures GivesNext(o.reply, obj, offset, n)
    ensures 2 <= |o.reply| && Body(o.reply) == obj[offset..offset + n] && ChainIs(o.card.piv, obj, offset + n)
  {
    n := ReadStep(card, q, obj, offset);
    ChainAdvances(card.piv, obj, offset, n);
    Parts(obj[offset..offset + n], RestStatus(|obj| - offset, n));
  }

  lemma CommandReadsOn(card: Card, q: Request, o: Outcome, obj: seq<byte>, got: seq<byte>) returns (got': seq<byte>)
    requires card.WellFormed() && q.Legal() && MAX_REPLY <= q.capacity && ReadsChain(card, q)
    requires o == ProcessApdu(card, q) && got <= obj && ChainIs(card.piv, obj, |got|)
    ensures 2 <= |o.reply| && got' == got + Body(o.reply) && got' <= obj && ChainIs(o.card.piv, obj, |got'|)
  {
    var n := CommandReads(card, q, o, obj, |got|);
    AppendNext(obj, got, n);
    got' := obj[..|got| + n];
  }

  lemma OtherInRun(w: World, e: Event)
    requires w.WellFormed() && w.Enabled(e) && !IsPowerOn(e) && !StartsAt(w, e)
    requires !Reads(w, e)
    ensures ChunkIn(w, e) == []
    ensures var p, p' := w.card.piv, w.Step(e).card.piv;
            p'.chainBuf == p.chainBuf && p'.chainLen == p.chainLen && p'.chainOffset == p.chainOffset
  {
    if ApduOf(w, e).Some? {
      CommandSteps(w, e);
      OthersLeaveChain(w.card, ApduOf(w, e).value);
    } else {
      QuietKeepsPiv(w, e);
    }
  }

  lemma ChainGoesOn(w: World, e: Event, obj: seq<byte>, got: seq<byte>) returns (got': seq<byte>)
    requires w.WellFormed() && w.Enabled(e) && !IsPowerOn(e) && !StartsAt(w, e)
    requires got <= obj && ChainIs(w.card.piv, obj, |got|)
    ensures got' == got + ChunkIn(w, e) && got' <= obj && ChainIs(w.Step(e).card.piv, obj, |got'|)
  {
    if Reads(w, e) {
      CommandSteps(w, e);
      got' := CommandReadsOn(w.card, ApduOf(w, e).value, OutcomeIn(w, e), obj, got);
    } else {
      OtherInRun(w, e);
      StepKeepsWellFormed(w, e);
      got' := got;
    }
  }

  lemma CommandStarts(card: Card, q: Request, o: Outcome) returns (got: seq<byte>)
    requires card.WellFormed() && q.Legal() && MAX_REPLY <= q.capacity && StartsChain(card, q)
    requires o == ProcessApdu(card, q)
    ensures var obj := Found(card, q).value;
            2 <= |o.reply| && got == Body(o.reply) && got <= obj && ChainIs(o.card.piv, obj, |got|)
  {
    StartStep(card, q);
    got := Found(card, q).value[..AskedLe(q)];
  }

  lemma ChainBegins(w: World, e: Event) returns (got: seq<byte>)
    requires w.WellFormed() && w.Enabled(e) && StartsAt(w, e)
    ensures got == ChunkIn(w, e) && got <= ObjectOf(w, e) && ChainIs(w.Step(e).card.piv, ObjectOf(w, e), |got|)
  {
    CommandSteps(w, e);
    got := CommandStarts(w.card, ApduOf(w, e).value, OutcomeIn(w, e));
  }

  // ---- any number of events ----

  lemma {:induction false} StepsReassemble(pivs: seq<Piv>, chunks: seq<seq<byte>>, s: nat, k: nat, obj: seq<byte>)
    requires s < k <= |chunks| < |pivs| && Reassembles(pivs, chunks, s, s + 1, obj)
    requires forall m :: s < m < k ==> Advances(pivs, chunks, obj, m)
    ensures Reassembles(pivs, chunks, s, k, obj)
  {
    if k == s + 1 {
    } else {
      StepsReassemble(pivs, chunks, s, k - 1, obj);
      assert Advances(pivs, chunks, obj, k - 1);
    }
  }

  lemma ChunkAt(ws: seq<World>, es: seq<Event>, k: nat)
    requires IsRun(ws, es) && k < |es|
    ensures Steps(ws, es, k) && Chunks(ws, es)[k] == ChunkIn(ws[k], es[k])
  {
    assert Steps(ws, es, k);
  }

  lemma FirstReassembles(ws: seq<World>, es: seq<Event>, s: nat, obj: seq<byte>)
    requires IsRun(ws, es) && s < |es| && Begins(ws, es, s, obj)
    ensures Reassembles(Pivs(ws), Chunks(ws, es), s, s + 1, obj)
  {
    ChunkAt(ws, es, s);
    var got := ChainBegins(ws[s], es[s]);
    assert Joined(Chunks(ws, es), s, s) == [];
    assert Joined(Chunks(ws, es), s, s + 1) == got;
  }

  lemma EventAdvances(ws: seq<World>, es: seq<Event>, k: nat, obj: seq<byte>)
    requires IsRun(ws, es) && k < |es| && GoesOn(ws, es, k)
    ensures Advances(Pivs(ws), Chunks(ws, es), obj, k)
  {
    ChunkAt(ws, es, k);
    forall got | got <= obj && ChainIs(ws[k].card.piv, obj, |got|)
      ensures got + ChunkIn(ws[k], es[k]) <= obj && ChainIs(ws[k + 1].card.piv, obj, |got + ChunkIn(ws[k], es[k])|)
    {
      var _ := ChainGoesOn(ws[k], es[k], obj, got);
    }
  }

  /** In every state of a chain: what has been delivered is a beginning of the object, and the chain holds the rest. */
  lemma ChainReassembles(ws: seq<World>, es: seq<Event>, s: nat, k: nat, obj: seq<byte>)
    requires IsRun(ws, es) && s < k <= |es| && Begins(ws, es, s, obj) && Uninterrupted(ws, es, s, k)
    ensures Delivered(ws, es, s, k) <= obj && ChainIs(ws[k].card.piv, obj, |Delivered(ws, es, s, k)|)
  {
    FirstReassembles(ws, es, s, obj);
    forall m | s < m < k
      ensures Advances(Pivs(ws), Chunks(ws, es), obj, m)
    {
      assert GoesOn(ws, es, m);
      EventAdvances(ws, es, m, obj);
    }
    StepsReassemble(Pivs(ws), Chunks(ws, es), s, k, obj);
  }

  /**
   From `before`, a beginning of the object, the reply leads to `after`; it says 9000 exactly when that completes the
   object, 6985 exactly when it was complete, and 61xx otherwise, with xx the octets still to come, at most FF.
   */
  predicate TellsRest(reply: seq<byte>, obj: seq<byte>, before: seq<byte>, after: seq<byte>) {
    && 2 <= |reply| && before <= after <= obj
    && (StatusCode(reply) == 0x9000 <==> |before| < |obj| == |after|)
    && (StatusCode(reply) == 0x6985 <==> |before| == |obj|)
    && Announces(reply[|reply| - 2], reply[|reply| - 1], |obj| - |after|)
  }

  /** 61 and the number of octets still to come, at most FF, if there are any, and no 61 otherwise. */
  predicate Announces(sw1: byte, sw2: byte, rest: nat) {
    (sw1 == 0x61 <==> 0 < rest) && (0 < rest ==> sw2 == Min(rest, 0xFF) != 0)
  }

  lemma StatusOfChunk(obj: seq<byte>, before: seq<byte>, n: nat, reply: seq<byte>)
    requires before <= obj && GivesNext(reply, obj, |before|, n)
    ensures 2 <= |reply| && TellsRest(reply, obj, before, before + Body(reply))
  {
    Parts(obj[|before|..|before| + n], RestStatus(|obj| - |before|, n));
    AppendNext(obj, before, n);
    RestStatusCodes(|obj| - |before|, n, reply);
  }

  /** What a reply that ends in the status for the rest tells. */
  lemma RestStatusCodes(total: nat, n: nat, reply: seq<byte>)
    requires n <= total && (total > 0 ==> n > 0) && 2 <= |reply| && StatusOf(reply) == RestStatus(total, n)
    ensures StatusCode(reply) == 0x9000 <==> 0 < total == n
    ensures StatusCode(reply) == 0x6985 <==> total == 0
    ensures Announces(reply[|reply| - 2], reply[|reply| - 1], total - n)
  {
    RestStatusTells(total, n);
    assert reply[|reply| - 2] == StatusOf(reply)[0] && reply[|reply| - 1] == StatusOf(reply)[1];
  }

  lemma CommandTells(card: Card, q: Request, o: Outcome, obj: seq<byte>, before: seq<byte>)
    requires card.WellFormed() && q.Legal() && MAX_REPLY <= q.capacity && ReadsChain(card, q)
    requires o == ProcessApdu(card, q) && before <= obj && ChainIs(card.piv, obj, |before|)
    ensures 2 <= |o.reply| && TellsRest(o.reply, obj, before, before + Body(o.reply))
  {
    var n := CommandReads(card, q, o, obj, |before|);
    StatusOfChunk(obj, before, n, o.reply);
  }

  lemma ReplyInRun(w: World, e: Event, obj: seq<byte>, before: seq<byte>, reply: seq<byte>)
    requires w.WellFormed() && w.Enabled(e) && Reads(w, e) && reply == OutcomeIn(w, e).reply
    requires before <= obj && ChainIs(w.card.piv, obj, |before|)
    ensures 2 <= |reply| && TellsRest(reply, obj, before, before + Body(reply))
  {
    CommandSteps(w, e);
    CommandTells(w.card, ApduOf(w, e).value, OutcomeIn(w, e), obj, before);
  }

  lemma DeliveredNext(ws: seq<World>, es: seq<Event>, s: nat, k: nat, reply: seq<byte>)
    requires IsRun(ws, es) && s < k < |es| && Steps(ws, es, k) && Reads(ws[k], es[k])
    requires reply == OutcomeIn(ws[k], es[k]).reply && 2 <= |reply|
    ensures Delivered(ws, es, s, k + 1) == Delivered(ws, es, s, k) + Body(reply)
  {
    ChunkAt(ws, es, k);
  }

  /** What every GET RESPONSE of the chain tells about what has been delivered before it and with it. */
  lemma StatusInRun(ws: seq<World>, es: seq<Event>, s: nat, k: nat, obj: seq<byte>, reply: seq<byte>)
    requires IsRun(ws, es) && s < k < |es| && Begins(ws, es, s, obj) && Uninterrupted(ws, es, s, k)
    requires Steps(ws, es, k) && Reads(ws[k], es[k]) && reply == OutcomeIn(ws[k], es[k]).reply
    ensures TellsRest(reply, obj, Delivered(ws, es, s, k), Delivered(ws, es, s, k + 1))
  {
    ChainReassembles(ws, es, s, k, obj);
    ReplyInRun(ws[k], es[k], obj, Delivered(ws, es, s, k), reply);
    DeliveredNext(ws, es, s, k, reply);
  }

  // ---- IccPowerOn ends every chain ----

  lemma PowerOnClears(w: World, e: Event)
    requires w.WellFormed() && w.Enabled(e) && IsPowerOn(e)
    ensures var piv := w.Step(e).card.piv;
            !piv.selected && !piv.pinVerified && ChainIs(piv, [], 0)
    ensures !Reads(w, e) && !StartsAt(w, e) && ChunkIn(w, e) == []
  {
    assert Splice(w.rx, 0, e.act.msg)[0] == e.act.msg[0];
  }

  lemma ClearedReassembles(ws: seq<World>, es: seq<Event>, s: nat)
    requires IsRun(ws, es) && s < |es| && IsPowerOn(es[s])
    ensures Reassembles(Pivs(ws), Chunks(ws, es), s, s + 1, [])
  {
    ChunkAt(ws, es, s);
    PowerOnClears(ws[s], es[s]);
    assert Joined(Chunks(ws, es), s, s) == [];
    assert Joined(Chunks(ws, es), s, s + 1) == [];
  }

  /** After an IccPowerOn, and until the next chain is started, there is nothing to read: GET RESPONSE is refused. */
  lemma NothingToReadAfterPowerOn(ws: seq<World>, es: seq<Event>, s: nat, k: nat, reply: seq<byte>)
    requires IsRun(ws, es) && s < k < |es| && IsPowerOn(es[s]) && Uninterrupted(ws, es, s, k)
    requires Steps(ws, es, k) && Reads(ws[k], es[k]) && reply == OutcomeIn(ws[k], es[k]).reply
    ensures reply == [0x69, 0x85]
  {
    ClearedReassembles(ws, es, s);
    forall m | s < m < k
      ensures Advances(Pivs(ws), Chunks(ws, es), [], m)
    {
      assert GoesOn(ws, es, m);
      EventAdvances(ws, es, m, []);
    }
    StepsReassemble(Pivs(ws), Chunks(ws, es), s, k, []);
    EmptyChainRefuses(ws[k], es[k], reply);
  }

  lemma EmptyChainRefuses(w: World, e: Event, reply: seq<byte>)
    requires w.WellFormed() && w.Enabled(e) && Reads(w, e) && reply == OutcomeIn(w, e).reply
    requires ChainIs(w.card.piv, [], 0)
    ensures reply == [0x69, 0x85]
  {
    CommandSteps(w, e);
    var n := CommandReads(w.card, ApduOf(w, e).value, OutcomeIn(w, e), [], 0);
    RestStatusTells(0, 0);
    var chunk: seq<byte> := [];
    assert chunk + [0x69, 0x85] == [0x69, 0x85];
  }
}
