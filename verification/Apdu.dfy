/**
 Short command and response APDUs (ISO/IEC 7816-4:2005 section 5.1): the parser, the canonical encoder it is
 measured against, and the response builder.
 */
module Apdu {
  import opened Bytes

  const HEADER := 4
  /** Header, Lc, 255 data octets and Le: no octet behind these can be touched by the parser. */
  const MAX_SHORT := 261

  /** A status word. */
  type StatusWord = w: int | 0 <= w < 0x1_0000

  const SW_OK: StatusWord := 0x9000
  const SW_WRONG_LENGTH: StatusWord := 0x6700
  const SW_SECURITY_NOT_SATISFIED: StatusWord := 0x6982
  const SW_CONDITIONS_NOT_SATISFIED: StatusWord := 0x6985
  const SW_WRONG_DATA: StatusWord := 0x6A80
  const SW_FILE_NOT_FOUND: StatusWord := 0x6A82
  const SW_INCORRECT_P1P2: StatusWord := 0x6A86
  const SW_REFERENCED_DATA_NOT_FOUND: StatusWord := 0x6A88
  const SW_INS_NOT_SUPPORTED: StatusWord := 0x6D00
  const SW_CLA_NOT_SUPPORTED: StatusWord := 0x6E00
  const SW_UNKNOWN: StatusWord := 0x6F00

  function SwMoreData(n: nat): StatusWord {
    0x6100 + n % 0x100
  }

  function SwBytes(sw: StatusWord): (s: seq<byte>)
    ensures |s| == 2
  {
    [High(sw), Low(sw)]
  }

  // ---- the parser ----

  /** `apdu_cmd_t`; the data pointer is kept as the position of the data in the raw buffer. */
  datatype Command = Command(
    cla: byte, ins: byte, p1: byte, p2: byte,
    hasLc: bool, lc: nat, dataAt: nat,
    hasLe: bool, le: nat)

  /**
   The memory from the APDU on is long enough for a parser told that `rawLen` octets arrived: it holds that many,
   or as many as the longest short APDU has.
   */
  predicate Readable(mem: seq<byte>, rawLen: nat) {
    rawLen <= |mem| || MAX_SHORT <= |mem|
  }

  function LeValue(octet: byte): nat {
    if octet == 0 then 256 else octet
  }

  function Parse(mem: seq<byte>, rawLen: nat): (r: Option<Command>)
    requires Readable(mem, rawLen)
    ensures r.Some? && r.value.hasLc ==>
              r.value.lc < 0x100 && r.value.dataAt == 5 && 5 + r.value.lc <= rawLen && 5 + r.value.lc <= |mem|
    ensures r.Some? && r.value.hasLe ==> 1 <= r.value.le <= 256
  {
    if rawLen < HEADER then None
    else
      var bare := Command(mem[0], mem[1], mem[2], mem[3], false, 0, 0, false, 0);
      if rawLen == HEADER then Some(bare)
      else if rawLen == 5 then Some(bare.(hasLe := true, le := LeValue(mem[4])))
      else
        var lc := mem[4] as nat;
        if 5 + lc > rawLen then None
        else
          var withData := bare.(hasLc := true, lc := lc, dataAt := 5);
          if 5 + lc < rawLen
          then Some(withData.(hasLe := true, le := LeValue(mem[5 + lc])))
          else Some(withData)
  }

  /** `apdu_parse`: fills the command while `idx` moves over the raw octets. */
  method ParseRaw(raw: array<byte>, at: nat, rawLen: nat) returns (ok: bool, cmd: Command)
    requires at <= raw.Length && Readable(raw[at..], rawLen)
    ensures ok == Parse(raw[at..], rawLen).Some?
    ensures ok ==> cmd == Parse(raw[at..], rawLen).value
  {
    cmd := Command(0, 0, 0, 0, false, 0, 0, false, 0);
    if rawLen < HEADER {
      return false, cmd;
    }
    cmd := cmd.(cla := raw[at], ins := raw[at + 1], p1 := raw[at + 2], p2 := raw[at + 3]);
    if rawLen == HEADER {
      return true, cmd;
    }
    var idx := HEADER;
    var first := raw[at + idx];
    if rawLen == 5 {
      cmd := cmd.(hasLe := true, le := LeValue(first));
      return true, cmd;
    }
    cmd := cmd.(hasLc := true, lc := first);
    idx := idx + 1;
    if idx + cmd.lc > rawLen {
      return false, cmd;
    }
    cmd := cmd.(dataAt := idx);
    idx := idx + cmd.lc;
    if idx < rawLen {
      cmd := cmd.(hasLe := true, le := LeValue(raw[at + idx]));
    }
    return true, cmd;
  }

  // ---- what the parser means: the canonical encoding of the four short cases ----

  /** A command as the standard describes it: no Lc without data, Le from 1 to 256. */
  datatype Short = Short(cla: byte, ins: byte, p1: byte, p2: byte, data: seq<byte>, le: Option<nat>) {
    predicate WellFormed() {
      |data| <= 255 && (le.Some? ==> 1 <= le.value <= 256)
    }
  }

  function Encode(a: Short): seq<byte>
    requires a.WellFormed()
  {
    [a.cla, a.ins, a.p1, a.p2]
    + (if a.data == [] then [] else [|a.data|] + a.data)
    + (if a.le.None? then [] else [Low(a.le.value)])
  }

  /** The command a parse result stands for. */
  function View(mem: seq<byte>, c: Command): Short
    requires c.hasLc ==> c.dataAt + c.lc <= |mem|
  {
    Short(c.cla, c.ins, c.p1, c.p2,
          if c.hasLc then mem[c.dataAt..c.dataAt + c.lc] else [],
          if c.hasLe then Some(c.le) else None)
  }

  /** Cases 1, 2S, 3S and 4S, Le 256 as 00; whatever lies behind the APDU in memory does not matter. */
  lemma ParseInvertsEncode(a: Short, beyond: seq<byte>)
    requires a.WellFormed()
    ensures var mem := Encode(a) + beyond;
            var c := Parse(mem, |Encode(a)|);
            c.Some? && View(mem, c.value) == a
  {
    var raw := Encode(a);
    var mem := raw + beyond;
    if a.data != [] {
      assert mem[4] == |a.data|;
      assert mem[5..5 + |a.data|] == a.data;
    }
    if a.le.Some? {
      assert raw[|raw| - 1] == Low(a.le.value);
    }
  }

  /** The lengths the parser accepts, and the octets the data view then covers. */
  lemma ParseAcceptsIff(mem: seq<byte>, rawLen: nat)
    requires Readable(mem, rawLen)
    ensures Parse(mem, rawLen).Some? <==>
              rawLen == 4 || rawLen == 5 || (rawLen >= 6 && rawLen >= 5 + mem[4] as nat)
    ensures rawLen >= 6 && Parse(mem, rawLen).Some? ==>
              View(mem, Parse(mem, rawLen).value).data == mem[5..5 + mem[4] as nat]
  {
  }

  /**
   Re-encoding an accepted APDU gives its octets back except for two kinds of input the parser tolerates: an Lc
   octet of zero, and octets behind Le.
   */
  lemma EncodeInvertsParseIff(mem: seq<byte>, rawLen: nat)
    requires rawLen <= |mem| && Parse(mem, rawLen).Some?
    ensures var a := View(mem, Parse(mem, rawLen).value);
            a.WellFormed() &&
            (Encode(a) == mem[..rawLen] <==>
               rawLen <= 5 || (mem[4] != 0 && rawLen <= 6 + mem[4] as nat))
  {
    if rawLen >= 6 {
      EncodeWithLc(mem, rawLen);
    } else {
      assert Encode(View(mem, Parse(mem, rawLen).value)) == mem[..rawLen];
    }
  }

  lemma EncodeWithLc(mem: seq<byte>, rawLen: nat)
    requires 6 <= rawLen <= |mem| && Parse(mem, rawLen).Some?
    ensures var a := View(mem, Parse(mem, rawLen).value);
            a.WellFormed() && (Encode(a) == mem[..rawLen] <==> mem[4] != 0 && rawLen <= 6 + mem[4] as nat)
  {
    var a := View(mem, Parse(mem, rawLen).value);
    var lc := mem[4] as nat;
    assert a.data == mem[5..5 + lc];
    assert [a.cla, a.ins, a.p1, a.p2] == mem[..4];
    assert mem[..5 + lc] == mem[..4] + [mem[4]] + mem[5..5 + lc];
    if rawLen > 5 + lc {
      assert mem[..6 + lc] == mem[..5 + lc] + [mem[5 + lc]];
    }
    if lc == 0 {
      assert |Encode(a)| == 5;
    }
  }

  // ---- the response builder ----

  /** `apdu_resp_t` as a value: the capacity of the caller's buffer and the body so far. */
  datatype Response = Response(capacity: nat, body: seq<byte>) {
    /** Two octets stay reserved for the status word; appending nothing always works. */
    predicate Fits(data: seq<byte>) {
      data == [] || |body| + |data| + 2 <= capacity
    }

    /** An append that does not fit changes nothing. */
    function Append(data: seq<byte>): (r: Response)
      ensures |body| + 2 <= capacity ==> |r.body| + 2 <= r.capacity == capacity
    {
      if Fits(data) then this.(body := body + data) else this
    }

    function Finalize(sw: StatusWord): (s: seq<byte>)
      ensures |s| == |body| + 2
    {
      body + SwBytes(sw)
    }
  }

  function StartResponse(capacity: nat): Response {
    Response(capacity, [])
  }

  /** A response that carries no data. */
  function Status(sw: StatusWord): (s: seq<byte>)
    ensures |s| == 2
  {
    SwBytes(sw)
  }

  /** `apdu_resp_t`: writes into `buf[at..at + capacity]` and nowhere else. */
  class ResponseBuilder {
    const buf: array<byte>
    const at: nat
    const capacity: nat
    var len: nat
    var sw: StatusWord
    ghost const before: seq<byte>  // the whole buffer as the builder found it
    ghost var model: Response

    ghost predicate Valid()
      reads this, buf
    {
      && 2 <= capacity && at + capacity <= buf.Length && |before| == buf.Length
      && model.capacity == capacity && |model.body| == len && len + 2 <= capacity
      && buf[..] == Splice(before, at, model.body)
    }

    constructor (buf: array<byte>, at: nat, capacity: nat)
      requires 2 <= capacity && at + capacity <= buf.Length
      ensures Valid() && this.buf == buf && this.at == at && before == buf[..]
      ensures model == StartResponse(capacity)
    {
      this.buf, this.at, this.capacity := buf, at, capacity;
      len, sw := 0, SW_OK;
      before, model := buf[..], StartResponse(capacity);
    }

    method Append(data: seq<byte>) returns (ok: bool)
      requires Valid()
      modifies this, buf
      ensures Valid() && model == old(model).Append(data) && ok == old(model).Fits(data)
    {
      if |data| == 0 {
        assert model.body + data == model.body;
        return true;
      }
      if len + |data| + 2 > capacity {
        return false;
      }
      SpliceSplice(before, at, model.body, data);
      MemCpy(buf, at + len, data);
      len := len + |data|;
      model := model.Append(data);
      return true;
    }

    method Push(octet: byte) returns (ok: bool)
      requires Valid()
      modifies this, buf
      ensures Valid() && model == old(model).Append([octet]) && ok == old(model).Fits([octet])
    {
      ok := Append([octet]);
    }

    method Finalize(sw: StatusWord) returns (total: nat)
      requires Valid()
      modifies this, buf
      ensures total == |old(model).Finalize(sw)| <= capacity
      ensures buf[..] == Splice(before, at, old(model).Finalize(sw))
    {
      this.sw := sw;
      SpliceSplice(before, at, model.body, SwBytes(sw));
      MemCpy(buf, at + len, [High(sw), Low(sw)]);
      total := len + 2;
    }
  }
}
