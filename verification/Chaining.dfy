/**
 Response chaining (ISO/IEC 7816-4:2005 section 7.6.1): whatever chunk sizes the host asks for, and whatever other
 commands come in between, the chunks are the object in order and 9000 comes exactly with its last octet.
 */
module Chaining {
  import opened Bytes
  import opened Apdu
  import opened PivModel
  import opened Replies

  /** The command reaches the handler for `ins`. */
  predicate Executes(card: Card, q: Request, ins: byte)
    requires q.Legal()
  {
    match Parse(q.mem, q.rawLen)
    case None => false
    case Some(c) => c.cla == 0 && card.piv.selected && c.ins == ins
  }

  predicate ReadsChain(card: Card, q: Request)
    requires q.Legal()
  {
    Executes(card, q, INS_GET_RESPONSE)
  }

  /** The object of a GET DATA that finds one. */
  function Found(card: Card, q: Request): Option<seq<byte>>
    requires q.Legal()
  {
    if Executes(card, q, INS_GET_DATA) && DataRequestStatus(Parse(q.mem, q.rawLen).value, q.mem) == SW_OK
    then Lookup(card.vault, q.mem[6], q.mem[7..10])
    else None
  }

  function AskedLe(q: Request): nat
    requires q.Legal() && Parse(q.mem, q.rawLen).Some?
  {
    EffectiveLe(Parse(q.mem, q.rawLen).value)
  }

  /** A GET DATA whose object does not fit its Le. */
  predicate StartsChain(card: Card, q: Request)
    requires q.Legal()
  {
    match Found(card, q)
    case None => false
    case Some(obj) => |obj| > AskedLe(q)
  }

  function Body(reply: seq<byte>): seq<byte>
    requires 2 <= |reply|
  {
    reply[..|reply| - 2]
  }

  function StatusOf(reply: seq<byte>): seq<byte>
    requires 2 <= |reply|
  {
    reply[|reply| - 2..]
  }

  /** The chain and what is in it, as the applet state has it. */
  ghost predicate ChainIs(p: Piv, obj: seq<byte>, offset: nat) {
    && p.WellFormed() && offset <= |obj| == p.chainLen && p.chainOffset == offset && p.chainBuf[..|obj|] == obj
  }

  /** Commands other than these two leave the chain alone; that includes a GET DATA answered in one piece. */
  lemma OthersLeaveChain(card: Card, q: Request)
    requires card.WellFormed() && q.Legal() && !ReadsChain(card, q) && !StartsChain(card, q)
    ensures var p, p' := card.piv, ProcessApdu(card, q).card.piv;
            p'.chainBuf == p.chainBuf && p'.chainLen == p.chainLen && p'.chainOffset == p.chainOffset
  {
  }

  lemma Parts(body: seq<byte>, status: seq<byte>)
    requires |status| == 2
    ensures Body(body + status) == body && StatusOf(body + status) == status
  {
  }

  /** The status word that tells how much is left after `n` of `total` octets. */
  function RestStatus(total: nat, n: nat): (s: seq<byte>)
    requires n <= total
    ensures |s| == 2
  {
    if total == 0 then SwBytes(SW_CONDITIONS_NOT_SATISFIED)
    else if n == total then SwBytes(SW_OK)
    else [0x61, Min(total - n, 0xFF)]
  }

  /** A GET DATA that finds an object delivers it. */
  lemma RoutesToDeliver(card: Card, q: Request)
    requires card.WellFormed() && q.Legal() && Found(card, q).Some?
    ensures |Found(card, q).value| <= BUFFER
    ensures ProcessApdu(card, q) == Deliver(card, Parse(q.mem, q.rawLen).value, q, Found(card, q).value)
  {
    ObjectFits(card.vault, q.mem[6], q.mem[7..10]);
  }

  /** An object that fits its Le comes in one piece. */
  lemma WholeStep(card: Card, q: Request)
    requires card.WellFormed() && q.Legal() && MAX_REPLY <= q.capacity && Found(card, q).Some?
    requires !StartsChain(card, q)
    ensures ProcessApdu(card, q) == Outcome(card, Found(card, q).value + SwBytes(SW_OK))
  {
    RoutesToDeliver(card, q);
    DeliversWhole(card, Parse(q.mem, q.rawLen).value, q, Found(card, q).value);
  }

  lemma DeliversWhole(card: Card, c: Command, q: Request, obj: seq<byte>)
    requires card.WellFormed() && q.Legal() && MAX_REPLY <= q.capacity && |obj| <= BUFFER
    requires |obj| <= EffectiveLe(c) <= 256
    ensures Deliver(card, c, q, obj) == Outcome(card, obj + SwBytes(SW_OK))
  {
    assert StartResponse(q.capacity).Append(obj).body == obj;
  }

  lemma DeliversBeginning(card: Card, c: Command, q: Request, obj: seq<byte>)
    requires card.WellFormed() && q.Legal() && MAX_REPLY <= q.capacity && |obj| <= BUFFER
    requires EffectiveLe(c) < |obj| && EffectiveLe(c) <= 256
    ensures var o, le := Deliver(card, c, q, obj), EffectiveLe(c);
            ChainIs(o.card.piv, obj, le) && o.card.piv.selected == card.piv.selected
            && o.reply == obj[..le] + RestStatus(|obj|, le)
  {
    var le := EffectiveLe(c);
    assert StartResponse(q.capacity).Append(obj[..le]).body == obj[..le];
    assert Splice(card.piv.chainBuf, 0, obj)[..|obj|] == obj;
    MoreDataIsStatus(|obj| - le);
  }

  /** The first chunk. */
  lemma StartStep(card: Card, q: Request)
    requires card.WellFormed() && q.Legal() && MAX_REPLY <= q.capacity && StartsChain(card, q)
    ensures var obj, le := Found(card, q).value, AskedLe(q);
            var o := ProcessApdu(card, q);
            && 1 <= le < |obj| <= BUFFER && ChainIs(o.card.piv, obj, le) && o.card.piv.selected
            && 2 <= |o.reply| && Body(o.reply) == obj[..le]
            && StatusOf(o.reply) == [0x61, Min(|obj| - le, 0xFF)]
  {
    var obj, le := Found(card, q).value, AskedLe(q);
    RoutesToDeliver(card, q);
    DeliversBeginning(card, Parse(q.mem, q.rawLen).value, q, obj);
    Parts(obj[..le], [0x61, Min(|obj| - le, 0xFF)]);
  }

  /** What is pending in a chain. */
  lemma PendingOfChain(p: Piv, obj: seq<byte>, offset: nat)
    requires ChainIs(p, obj, offset)
    ensures p.Pending() == obj[offset..]
  {
    if offset < |obj| {
      assert p.Pending() == p.chainBuf[..|obj|][offset..];
    }
  }

  lemma ChainAdvances(p: Piv, obj: seq<byte>, offset: nat, n: nat)
    requires ChainIs(p, obj, offset) && offset + n <= |obj|
    ensures ChainIs(p.(chainOffset := p.chainOffset + n), obj, offset + n)
  {
  }

  lemma RoutesToGetResponse(card: Card, q: Request)
    requires card.WellFormed() && q.Legal() && ReadsChain(card, q)
    ensures ProcessApdu(card, q) == GetResponse(card, Parse(q.mem, q.rawLen).value, q)
  {
  }

  /** GET RESPONSE said of what is pending. */
  lemma ResponseStep(card: Card, c: Command, q: Request)
    requires card.WellFormed() && q.Legal() && MAX_REPLY <= q.capacity && (c.hasLe ==> 1 <= c.le <= 256)
    ensures var pending := card.piv.Pending();
            var n := Min(|pending|, EffectiveLe(c));
            GetResponse(card, c, q) == Outcome(card.(piv := card.piv.(chainOffset := card.piv.chainOffset + n)),
                                               pending[..n] + RestStatus(|pending|, n))
  {
    var pending := card.piv.Pending();
    var n := Min(|pending|, EffectiveLe(c));
    if pending == [] {
      assert pending[..n] + SwBytes(SW_CONDITIONS_NOT_SATISFIED) == Status(SW_CONDITIONS_NOT_SATISFIED);
    } else {
      assert StartResponse(q.capacity).Append(pending[..n]).body == pending[..n];
      if n < |pending| {
        MoreDataIsStatus(|pending| - n);
      }
    }
  }

  /** GET RESPONSE said of a chain. */
  lemma ChainResponse(card: Card, c: Command, q: Request, obj: seq<byte>, offset: nat) returns (n: nat)
    requires card.WellFormed() && q.Legal() && MAX_REPLY <= q.capacity && (c.hasLe ==> 1 <= c.le <= 256)
    requires ChainIs(card.piv, obj, offset)
    ensures n == Min(|obj| - offset, EffectiveLe(c))
    ensures GetResponse(card, c, q) == Outcome(card.(piv := card.piv.(chainOffset := offset + n)),
                                               obj[offset..offset + n] + RestStatus(|obj| - offset, n))
  {
    PendingOfChain(card.piv, obj, offset);
    ResponseStep(card, c, q);
    n := Min(|obj| - offset, EffectiveLe(c));
    assert obj[offset..][..n] == obj[offset..offset + n];
  }

  /** Every further chunk: as many octets as Le and the rest of the object allow, and the status that goes with it. */
  lemma ReadStep(card: Card, q: Request, obj: seq<byte>, offset: nat) returns (n: nat)
    requires card.WellFormed() && q.Legal() && MAX_REPLY <= q.capacity && ReadsChain(card, q)
    requires ChainIs(card.piv, obj, offset)
    ensures n == Min(|obj| - offset, AskedLe(q))
    ensures ProcessApdu(card, q) == Outcome(card.(piv := card.piv.(chainOffset := offset + n)),
                                            obj[offset..offset + n] + RestStatus(|obj| - offset, n))
  {
    RoutesToGetResponse(card, q);
    n := ChainResponse(card, Parse(q.mem, q.rawLen).value, q, obj, offset);
  }

  // ---- whole exchanges ----

  /**
   Command `k` arrives in state `cards[k]` and is answered with `outs[k]`. Only the applet state is followed from one
   command to the next: presses, ticks and resets may change the rest in between.
   */
  ghost predicate Exchanges(cards: seq<Card>, qs: seq<Request>, outs: seq<Outcome>, k: nat)
    requires k < |qs| == |outs| && |cards| == |qs| + 1
  {
    && cards[k].WellFormed() && qs[k].Legal() && MAX_REPLY <= qs[k].capacity
    && outs[k] == ProcessApdu(cards[k], qs[k]) && cards[k + 1].piv == outs[k].card.piv
  }

  ghost predicate IsExchange(cards: seq<Card>, qs: seq<Request>, outs: seq<Outcome>) {
    && |qs| == |outs| && |cards| == |qs| + 1
    && forall k :: 0 <= k < |qs| ==> Exchanges(cards, qs, outs, k)
  }

  /** The command is one of the two whose replies carry chunks. */
  predicate CarriesChunk(card: Card, q: Request) {
    q.Legal() && (ReadsChain(card, q) || StartsChain(card, q))
  }

  /** The chunks among the first `k` replies, one behind the other. */
  ghost function Collected(cards: seq<Card>, qs: seq<Request>, outs: seq<Outcome>, k: nat): seq<byte>
    requires k <= |qs| == |outs| && |cards| == |qs| + 1
  {
    if k == 0 then []
    else
      Collected(cards, qs, outs, k - 1)
      + (if CarriesChunk(cards[k - 1], qs[k - 1]) && 2 <= |outs[k - 1].reply| then Body(outs[k - 1].reply) else [])
  }

  /** The exchange begins with a GET DATA that starts a chain for `obj`, and no later command starts another. */
  ghost predicate IsChainOf(cards: seq<Card>, qs: seq<Request>, outs: seq<Outcome>, obj: seq<byte>) {
    && IsExchange(cards, qs, outs) && |qs| > 0
    && qs[0].Legal() && StartsChain(cards[0], qs[0]) && Found(cards[0], qs[0]) == Some(obj)
    && forall k :: 1 <= k < |qs| ==> Continues(cards, qs, k)
  }

  ghost predicate Continues(cards: seq<Card>, qs: seq<Request>, k: nat)
    requires k < |qs| <= |cards|
  {
    qs[k].Legal() && !StartsChain(cards[k], qs[k])
  }

  lemma NextRead(cards: seq<Card>, qs: seq<Request>, outs: seq<Outcome>, obj: seq<byte>, k: nat, offset: nat)
    returns (n: nat)
    requires IsChainOf(cards, qs, outs, obj) && 1 <= k < |qs| && ChainIs(cards[k].piv, obj, offset)
    requires qs[k].Legal() && ReadsChain(cards[k], qs[k])
    ensures n == Min(|obj| - offset, AskedLe(qs[k])) && (offset < |obj| ==> 1 <= n)
    ensures outs[k].reply == obj[offset..offset + n] + RestStatus(|obj| - offset, n)
    ensures cards[k + 1].piv == cards[k].piv.(chainOffset := offset + n)
  {
    assert Exchanges(cards, qs, outs, k);
    n := ReadStep(cards[k], qs[k], obj, offset);
  }

  lemma NextOther(cards: seq<Card>, qs: seq<Request>, outs: seq<Outcome>, obj: seq<byte>, k: nat, offset: nat)
    requires IsChainOf(cards, qs, outs, obj) && 1 <= k < |qs| && ChainIs(cards[k].piv, obj, offset)
    requires qs[k].Legal() && !ReadsChain(cards[k], qs[k])
    ensures ChainIs(cards[k + 1].piv, obj, offset)
  {
    assert Exchanges(cards, qs, outs, k);
    assert Continues(cards, qs, k);
    OthersLeaveChain(cards[k], qs[k]);
  }

  /** The state and chunk after one more command, said without the applet. */
  lemma NextChunk(cards: seq<Card>, qs: seq<Request>, outs: seq<Outcome>, obj: seq<byte>, k: nat, offset: nat)
    requires IsChainOf(cards, qs, outs, obj) && 1 <= k < |qs| && ChainIs(cards[k].piv, obj, offset)
    ensures qs[k].Legal()
    ensures ReadsChain(cards[k], qs[k]) ==>
              var n := Min(|obj| - offset, AskedLe(qs[k]));
              && n <= |obj| - offset && (offset < |obj| ==> 1 <= n)
              && ChainIs(cards[k + 1].piv, obj, offset + n)
              && 2 <= |outs[k].reply| && Body(outs[k].reply) == obj[offset..offset + n]
              && StatusOf(outs[k].reply) == RestStatus(|obj| - offset, n)
    ensures !ReadsChain(cards[k], qs[k]) ==> ChainIs(cards[k + 1].piv, obj, offset)
  {
    assert Continues(cards, qs, k);
    if ReadsChain(cards[k], qs[k]) {
      var n := NextRead(cards, qs, outs, obj, k, offset);
      ChainAdvances(cards[k].piv, obj, offset, n);
      Parts(obj[offset..offset + n], RestStatus(|obj| - offset, n));
    } else {
      NextOther(cards, qs, outs, obj, k, offset);
    }
  }

  lemma FirstChunk(cards: seq<Card>, qs: seq<Request>, outs: seq<Outcome>, obj: seq<byte>)
    requires IsChainOf(cards, qs, outs, obj)
    ensures 2 <= |outs[0].reply| && Body(outs[0].reply) <= obj && ChainIs(cards[1].piv, obj, |Body(outs[0].reply)|)
  {
    assert Exchanges(cards, qs, outs, 0);
    StartStep(cards[0], qs[0]);
  }

  lemma FirstPrefix(cards: seq<Card>, qs: seq<Request>, outs: seq<Outcome>, obj: seq<byte>)
    requires IsChainOf(cards, qs, outs, obj)
    ensures Collected(cards, qs, outs, 1) <= obj && ChainIs(cards[1].piv, obj, |Collected(cards, qs, outs, 1)|)
  {
    FirstChunk(cards, qs, outs, obj);
    assert Collected(cards, qs, outs, 0) == [];
    assert Collected(cards, qs, outs, 1) == Body(outs[0].reply);
  }

  lemma CollectedNext(cards: seq<Card>, qs: seq<Request>, outs: seq<Outcome>, obj: seq<byte>, k: nat)
    requires IsChainOf(cards, qs, outs, obj) && 1 <= k < |qs|
    ensures qs[k].Legal()
    ensures ReadsChain(cards[k], qs[k]) && 2 <= |outs[k].reply| ==>
              Collected(cards, qs, outs, k + 1) == Collected(cards, qs, outs, k) + Body(outs[k].reply)
    ensures !ReadsChain(cards[k], qs[k]) ==>
              Collected(cards, qs, outs, k + 1) == Collected(cards, qs, outs, k)
  {
    assert Continues(cards, qs, k);
  }

  lemma AppendNext(obj: seq<byte>, got: seq<byte>, n: nat)
    requires got <= obj && |got| + n <= |obj|
    ensures got + obj[|got|..|got| + n] == obj[..|got| + n]
  {
  }

  lemma NextPrefix(cards: seq<Card>, qs: seq<Request>, outs: seq<Outcome>, obj: seq<byte>, k: nat, got: seq<byte>)
    returns (got': seq<byte>)
    requires IsChainOf(cards, qs, outs, obj) && 1 <= k < |qs|
    requires got == Collected(cards, qs, outs, k) <= obj && ChainIs(cards[k].piv, obj, |got|)
    ensures got' == Collected(cards, qs, outs, k + 1) <= obj && ChainIs(cards[k + 1].piv, obj, |got'|)
  {
    NextChunk(cards, qs, outs, obj, k, |got|);
    CollectedNext(cards, qs, outs, obj, k);
    if ReadsChain(cards[k], qs[k]) {
      var n := Min(|obj| - |got|, AskedLe(qs[k]));
      AppendNext(obj, got, n);
      got' := obj[..|got| + n];
    } else {
      got' := got;
    }
  }

  /** What has been collected is always a beginning of the object. */
  lemma {:induction false} ChunksAreAPrefix(cards: seq<Card>, qs: seq<Request>, outs: seq<Outcome>, obj: seq<byte>,
                                            k: nat)
    requires IsChainOf(cards, qs, outs, obj) && 1 <= k <= |qs|
    ensures var got := Collected(cards, qs, outs, k);
            got <= obj && ChainIs(cards[k].piv, obj, |got|)
  {
    if k == 1 {
      FirstPrefix(cards, qs, outs, obj);
    } else {
      ChunksAreAPrefix(cards, qs, outs, obj, k - 1);
      var _ := NextPrefix(cards, qs, outs, obj, k - 1, Collected(cards, qs, outs, k - 1));
    }
  }

  /**
   A GET RESPONSE answers 9000 exactly when it completes the object, 6985 exactly when the object was complete
   already, and 61xx with xx the rest (at most FF, never 00) otherwise.
   */
  lemma StatusTellsTheRest(cards: seq<Card>, qs: seq<Request>, outs: seq<Outcome>, obj: seq<byte>, k: nat)
    requires IsChainOf(cards, qs, outs, obj) && 1 <= k < |qs| && qs[k].Legal() && ReadsChain(cards[k], qs[k])
    ensures 2 <= |outs[k].reply|
    ensures var before, after := Collected(cards, qs, outs, k), Collected(cards, qs, outs, k + 1);
            var status := StatusOf(outs[k].reply);
            && (status == [0x90, 0x00] <==> before != obj && after == obj)
            && (status == [0x69, 0x85] <==> before == obj)
            && (after != obj ==>
                  |after| < |obj| && status == [0x61, Min(|obj| - |after|, 0xFF)] && status[1] != 0)
  {
    ChunksAreAPrefix(cards, qs, outs, obj, k);
    var before := Collected(cards, qs, outs, k);
    CollectedNext(cards, qs, outs, obj, k);
    NextChunk(cards, qs, outs, obj, k, |before|);
    var n := Min(|obj| - |before|, AskedLe(qs[k]));
    AppendNext(obj, before, n);
    WholePrefix(obj, before);
    WholePrefix(obj, obj[..|before| + n]);
    RestStatusTells(|obj| - |before|, n);
  }

  lemma RestStatusTells(total: nat, n: nat)
    requires n <= total && (total > 0 ==> n > 0)
    ensures RestStatus(total, n) == [0x90, 0x00] <==> 0 < total == n
    ensures RestStatus(total, n) == [0x69, 0x85] <==> total == 0
    ensures RestStatus(total, n)[0] == 0x61 <==> n < total
    ensures n < total ==> RestStatus(total, n)[1] == Min(total - n, 0xFF) != 0
  {
    assert SwBytes(SW_OK) == [0x90, 0x00] && SwBytes(SW_CONDITIONS_NOT_SATISFIED) == [0x69, 0x85];
  }

  lemma WholePrefix(obj: seq<byte>, got: seq<byte>)
    requires got <= obj
    ensures got == obj <==> |got| == |obj|
  {
  }

  // ---- hosts that read to the end ----

  /** GET RESPONSE with Le. */
  function Ask(le: nat): (q: Request)
    requires 1 <= le <= 256
    ensures q.Legal() && MAX_REPLY <= q.capacity && Parse(q.mem, q.rawLen).Some? && AskedLe(q) == le
    ensures Parse(q.mem, q.rawLen).value.cla == 0 && Parse(q.mem, q.rawLen).value.ins == INS_GET_RESPONSE
  {
    Request([0, 0xC0, 0, 0, Low(le), 0, 0, 0, 0, 0], 5, 502, 0, [])
  }

  datatype Fetched = Fetched(octets: seq<byte>, commands: nat, card: Card)

  /** One answer as a host takes it: the state after it, the chunk, and the octets announced next (none at the end). */
  datatype Chunk = Chunk(card: Card, octets: seq<byte>, announced: nat)

  /** The octets announced by a status word (none at the end). */
  function Announced(status: seq<byte>): nat
    requires |status| == 2
  {
    if status[0] == 0x61 then status[1] else 0
  }

  function TakeChunk(o: Outcome): Chunk {
    if |o.reply| < 2 then Chunk(o.card, [], 0)
    else Chunk(o.card, Body(o.reply), Announced(StatusOf(o.reply)))
  }

  predicate Ready(card: Card) {
    card.WellFormed() && card.piv.selected
  }

  /** One GET RESPONSE with Le. */
  function Read(card: Card, le: nat): Chunk {
    if Ready(card) && 1 <= le <= 256 then TakeChunk(ProcessApdu(card, Ask(le))) else Chunk(card, [], 0)
  }

  /** `r` takes the next octets of what is pending and announces how many are left. */
  predicate TakesNext(card: Card, le: nat, r: Chunk)
    requires card.WellFormed()
  {
    var pending := card.piv.Pending();
    var n := Min(|pending|, le);
    && Ready(r.card) && |r.octets| == n
    && r.octets + r.card.piv.Pending() == pending && r.announced == Min(|pending| - n, 0xFF)
  }

  /** One GET RESPONSE, said of what is pending. */
  lemma ReadPending(card: Card, le: nat) returns (n: nat)
    requires Ready(card) && 1 <= le <= 256
    ensures n == Min(|card.piv.Pending()|, le)
    ensures ProcessApdu(card, Ask(le)) == Outcome(card.(piv := card.piv.(chainOffset := card.piv.chainOffset + n)),
                                                  card.piv.Pending()[..n] + RestStatus(|card.piv.Pending()|, n))
  {
    var q := Ask(le);
    RoutesToGetResponse(card, q);
    ResponseStep(card, Parse(q.mem, q.rawLen).value, q);
    n := Min(|card.piv.Pending()|, le);
  }

  /** A chunk and what is pending after it are what was pending before. */
  lemma PendingShrinks(p: Piv, n: nat)
    requires p.WellFormed() && n <= |p.Pending()|
    ensures p.Pending()[..n] + p.(chainOffset := p.chainOffset + n).Pending() == p.Pending()
  {
    if n < |p.Pending()| {
      SliceOfSlice(p.chainBuf, p.chainOffset, p.chainLen, n, |p.Pending()|);
      assert p.(chainOffset := p.chainOffset + n).Pending() == p.Pending()[n..];
    }
  }

  lemma RestStatusAnnounces(total: nat, n: nat)
    requires n <= total && (total > 0 ==> n > 0)
    ensures Announced(RestStatus(total, n)) == Min(total - n, 0xFF)
  {
    RestStatusTells(total, n);
  }

  /** A reply of octets and the status for the rest, as a chunk. */
  lemma ChunkOf(card: Card, octets: seq<byte>, total: nat, n: nat)
    requires n <= total && (total > 0 ==> n > 0)
    ensures TakeChunk(Outcome(card, octets + RestStatus(total, n))) == Chunk(card, octets, Min(total - n, 0xFF))
  {
    Parts(octets, RestStatus(total, n));
    RestStatusAnnounces(total, n);
  }

  /** What such a chunk is to the host. */
  lemma TakenChunk(card: Card, le: nat, n: nat)
    requires Ready(card) && n == Min(|card.piv.Pending()|, le)
    ensures var pending := card.piv.Pending();
            TakesNext(card, le, Chunk(card.(piv := card.piv.(chainOffset := card.piv.chainOffset + n)),
                                      pending[..n], Min(|pending| - n, 0xFF)))
  {
    PendingShrinks(card.piv, n);
  }

  lemma ReadTakesNext(card: Card, le: nat)
    requires Ready(card) && 1 <= le <= 256
    ensures TakesNext(card, le, Read(card, le))
  {
    var n := ReadPending(card, le);
    var pending := card.piv.Pending();
    ChunkOf(card.(piv := card.piv.(chainOffset := card.piv.chainOffset + n)), pending[..n], |pending|, n);
    TakenChunk(card, le, n);
  }

  /** A way to read from cards that takes the next octets each time, as GET RESPONSE does. */
  ghost predicate IsReader(read: (Card, nat) -> Chunk) {
    forall card: Card, le: nat :: Ready(card) && 1 <= le <= 256 ==> TakesNext(card, le, read(card, le))
  }

  lemma ReadIsReader()
    ensures IsReader(Read)
  {
    forall card: Card, le: nat | Ready(card) && 1 <= le <= 256
      ensures TakesNext(card, le, Read(card, le))
    {
      ReadTakesNext(card, le);
    }
  }

  /**
   A host that always asks for as much as the status word announces. It comes to an end because the rest of the
   chain shrinks with every command, and it then has everything that was pending.
   */
  ghost function FetchAnnounced(read: (Card, nat) -> Chunk, card: Card, le: nat): (f: Fetched)
    requires IsReader(read) && Ready(card) && 1 <= le <= 256
    ensures f.octets == card.piv.Pending() && Ready(f.card) && f.card.piv.Pending() == []
    decreases |card.piv.Pending()|
  {
    var r := read(card, le);
    assert TakesNext(card, le, r);
    if r.announced == 0 then Fetched(r.octets, 1, r.card)
    else
      var f := FetchAnnounced(read, r.card, r.announced);
      Fetched(r.octets + f.octets, 1 + f.commands, f.card)
  }

  /** A host that asks for 256 octets each time. */
  ghost function FetchFull(read: (Card, nat) -> Chunk, card: Card): (f: Fetched)
    requires IsReader(read) && Ready(card) && card.piv.Pending() != []
    ensures f.octets == card.piv.Pending() && f.commands == (|card.piv.Pending()| + 255) / 256
    ensures Ready(f.card) && f.card.piv.Pending() == []
    decreases |card.piv.Pending()|
  {
    var r := read(card, 256);
    assert TakesNext(card, 256, r);
    if r.announced == 0 then Fetched(r.octets, 1, r.card)
    else
      var f := FetchFull(read, r.card);
      Fetched(r.octets + f.octets, 1 + f.commands, f.card)
  }

  /** With the announced Le values, GET RESPONSE delivers all that is pending and then has nothing left. */
  lemma AnnouncedReadsEnd(card: Card, le: nat)
    requires Ready(card) && 1 <= le <= 256
    ensures IsReader(Read)
    ensures var f := FetchAnnounced(Read, card, le);
            f.octets == card.piv.Pending() && Ready(f.card) && f.card.piv.Pending() == []
  {
    ReadIsReader();
  }

  /** The state after the first chunk. */
  lemma ChainBegun(card: Card, q: Request)
    requires card.WellFormed() && q.Legal() && MAX_REPLY <= q.capacity && StartsChain(card, q)
    ensures var obj, le, o := Found(card, q).value, AskedLe(q), ProcessApdu(card, q);
            1 <= le < |obj| && Ready(o.card) && 2 <= |o.reply|
            && Body(o.reply) == obj[..le] && o.card.piv.Pending() == obj[le..]
  {
    StartStep(card, q);
    PendingOfChain(ProcessApdu(card, q).card.piv, Found(card, q).value, AskedLe(q));
  }

  /**
   With Le 256 throughout, an object of n > 256 octets takes exactly ceil(n / 256) - 1 GET RESPONSEs after the
   GET DATA, and one more is refused with 6985.
   */
  lemma ChainOfFullReads(card: Card, q: Request) returns (o: Outcome, f: Fetched)
    requires card.WellFormed() && q.Legal() && MAX_REPLY <= q.capacity
    requires StartsChain(card, q) && AskedLe(q) == 256
    ensures o == ProcessApdu(card, q) && 2 <= |o.reply|
    ensures IsReader(Read) && Ready(o.card) && o.card.piv.Pending() != [] && f == FetchFull(Read, o.card)
    ensures Body(o.reply) + f.octets == Found(card, q).value
    ensures f.commands == (|Found(card, q).value| + 255) / 256 - 1
    ensures Ready(f.card) && ProcessApdu(f.card, Ask(256)).reply == [0x69, 0x85]
  {
    ReadIsReader();
    ChainBegun(card, q);
    o := ProcessApdu(card, q);
    f := FetchFull(Read, o.card);
    var obj := Found(card, q).value;
    assert obj == obj[..256] + obj[256..];
    NothingLeft(f.card);
  }

  lemma NothingLeft(card: Card)
    requires Ready(card) && card.piv.Pending() == []
    ensures ProcessApdu(card, Ask(256)).reply == [0x69, 0x85]
  {
    var n := ReadPending(card, 256);
    assert [] + SwBytes(SW_CONDITIONS_NOT_SATISFIED) == [0x69, 0x85];
  }
}
