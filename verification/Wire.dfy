/** What follows the header of a datagram: a chain of extensions, then the payload.

    The header's integers are those of the packet; their byte order and layout are not part of
    the model. Extension 1 is the mask of a selective acknowledgement. */
module Wire {
  import opened Serial
  import opened Protocol

  const EXT_SACK := 1
  const EXT_BITS := 2
  const EXT_BITS_LENGTH := 8

  /** The header as far as `parse_packet` looks at it; `ext` is the type of the first extension,
      0 for none. */
  datatype Header = Header(typ: PacketType, ext: Byte, seqNr: U16, ackNr: U16, windowSize: U32)

  datatype Datagram = Datagram(header: Header, tail: seq<Byte>)

  datatype Ext = Ext(typ: Byte, data: seq<Byte>)

  /** What the chain says: the last mask in it, and where the payload starts. */
  datatype Parsed = Parsed(sack: Option<Mask>, payload: seq<Byte>)

  /** The chain that starts with an extension of type `ext` at the front of `rest`. */
  function ParseChain(ext: Byte, sack: Option<Mask>, rest: seq<Byte>): Option<Parsed>
    decreases |rest|
  {
    if ext == 0 then Some(Parsed(sack, rest))
    else if |rest| < 2 || |rest| - 2 < rest[1] then None
    else if ext == EXT_BITS && rest[1] != EXT_BITS_LENGTH then None
    else
      var data := rest[2..2 + rest[1]];
      ParseChain(rest[0], if ext == EXT_SACK then Some(data) else sack, rest[2 + rest[1]..])
  }

  function ToPayload(s: seq<Byte>): Bytes {
    if s == [] then [] else [s[0] as bv8] + ToPayload(s[1..])
  }

  function FromPayload(s: Bytes): seq<Byte> {
    if s == [] then [] else [s[0] as int] + FromPayload(s[1..])
  }

  function Parse(d: Datagram): Option<Packet> {
    var h := d.header;
    match ParseChain(h.ext, None, d.tail)
    case None => None
    case Some(p) => Some(Packet(h.typ, h.seqNr, h.ackNr, h.windowSize, p.sack, ToPayload(p.payload)))
  }

  /** `parse_packet` as a loop over the chain. */
  method ParsePacket(d: Datagram) returns (p: Option<Packet>)
    ensures p == Parse(d)
  {
    var extension := d.header.ext;
    var sack: Option<Mask> := None;
    var rest := d.tail;
    while extension != 0
      invariant ParseChain(d.header.ext, None, d.tail) == ParseChain(extension, sack, rest)
      decreases |rest|
    {
      if |rest| < 2 || |rest| - 2 < rest[1] {
        return None;
      }
      var length := rest[1];
      match extension {
        case 1 => sack := Some(rest[2..2 + length]);
        case 2 =>
          if length != EXT_BITS_LENGTH {
            return None;
          }
        case _ =>
      }
      extension := rest[0];
      rest := rest[2 + length..];
    }
    p := Some(Packet(d.header.typ, d.header.seqNr, d.header.ackNr, d.header.windowSize, sack, ToPayload(rest)));
  }

  /** The header and tail that `send_ack` and `send_packet` put together. */
  function Serialize(p: Packet): Datagram
    requires p.windowSize < MOD32 && (p.sack.Some? ==> |p.sack.value| < 0x100)
  {
    match p.sack
    case None => Datagram(Header(p.typ, 0, p.seqNr, p.ackNr, p.windowSize), FromPayload(p.payload))
    case Some(mask) =>
      Datagram(Header(p.typ, EXT_SACK, p.seqNr, p.ackNr, p.windowSize), [0, |mask|] + mask + FromPayload(p.payload))
  }

  lemma {:induction false} PayloadRoundTrip(s: Bytes)
    ensures ToPayload(FromPayload(s)) == s
  {
    if s != [] {
      var t := FromPayload(s);
      assert t[1..] == FromPayload(s[1..]);
      PayloadRoundTrip(s[1..]);
      assert t[0] as bv8 == s[0];
    }
  }

  /** What is sent is what is parsed. */
  lemma PacketRoundTrip(p: Packet)
    requires p.windowSize < MOD32 && (p.sack.Some? ==> |p.sack.value| < 0x100)
    ensures Parse(Serialize(p)) == Some(p)
  {
    PayloadRoundTrip(p.payload);
    if p.sack.Some? {
      var mask, payload := p.sack.value, FromPayload(p.payload);
      var tail := [0, |mask|] + mask + payload;
      assert tail[2..2 + |mask|] == mask && tail[2 + |mask|..] == payload;
      assert ParseChain(EXT_SACK, None, tail) == ParseChain(0, Some(mask), payload);
    }
  }

  // ---------------------------------------------------------------- any chain

  function FirstType(exts: seq<Ext>): Byte {
    if exts == [] then 0 else exts[0].typ
  }

  ghost predicate ValidChain(exts: seq<Ext>) {
    forall i :: 0 <= i < |exts| ==> ValidExt(exts[i])
  }

  predicate ValidExt(e: Ext) {
    e.typ != 0 && |e.data| < 0x100 && (e.typ == EXT_BITS ==> |e.data| == EXT_BITS_LENGTH)
  }

  /** A chain as bytes: each extension names the type of the next. */
  function Chain(exts: seq<Ext>): seq<Byte>
    requires ValidChain(exts)
  {
    if exts == [] then []
    else
      assert ValidExt(exts[0]);
      [FirstType(exts[1..]), |exts[0].data|] + exts[0].data + Chain(exts[1..])
  }

  function LastSack(exts: seq<Ext>, sack: Option<Mask>): Option<Mask> {
    if exts == [] then sack
    else LastSack(exts[1..], if exts[0].typ == EXT_SACK then Some(exts[0].data) else sack)
  }

  lemma {:induction false} ChainParses(exts: seq<Ext>, sack: Option<Mask>, payload: seq<Byte>)
    requires ValidChain(exts)
    ensures ParseChain(FirstType(exts), sack, Chain(exts) + payload) == Some(Parsed(LastSack(exts, sack), payload))
    decreases |exts|
  {
    if exts == [] {
      assert Chain(exts) + payload == payload;
    } else {
      var e, more := exts[0], exts[1..];
      assert ValidExt(e);
      var rest := Chain(exts) + payload;
      var sack' := if e.typ == EXT_SACK then Some(e.data) else sack;
      assert rest == [FirstType(more), |e.data|] + e.data + (Chain(more) + payload);
      assert rest[2..2 + |e.data|] == e.data && rest[2 + |e.data|..] == Chain(more) + payload;
      ChainParses(more, sack', payload);
    }
  }

  lemma {:induction false} ParsedIsChain(ext: Byte, sack: Option<Mask>, rest: seq<Byte>) returns (exts: seq<Ext>)
    requires ParseChain(ext, sack, rest).Some?
    ensures ValidChain(exts) && FirstType(exts) == ext
    ensures var p := ParseChain(ext, sack, rest).value;
            rest == Chain(exts) + p.payload && p.sack == LastSack(exts, sack)
    decreases |rest|
  {
    if ext == 0 {
      exts := [];
      assert rest == [] + rest;
    } else {
      var data := rest[2..2 + rest[1]];
      var sack' := if ext == EXT_SACK then Some(data) else sack;
      var more := ParsedIsChain(rest[0], sack', rest[2 + rest[1]..]);
      exts := [Ext(ext, data)] + more;
      ChainGrows(Ext(ext, data), more, rest, ParseChain(ext, sack, rest).value.payload);
    }
  }

  lemma ChainGrows(e: Ext, more: seq<Ext>, rest: seq<Byte>, payload: seq<Byte>)
    requires ValidExt(e) && ValidChain(more) && |rest| >= 2 + |e.data|
    requires rest[0] == FirstType(more) && rest[1] == |e.data| && rest[2..2 + |e.data|] == e.data
    requires rest[2 + |e.data|..] == Chain(more) + payload
    ensures ValidChain([e] + more) && rest == Chain([e] + more) + payload
    ensures ([e] + more)[1..] == more
  {
    var exts := [e] + more;
    assert exts[1..] == more;
    forall i | 0 <= i < |exts|
      ensures ValidExt(exts[i])
    {
      assert i == 0 || exts[i] == more[i - 1];
    }
    assert rest == [rest[0], rest[1]] + rest[2..2 + |e.data|] + rest[2 + |e.data|..];
  }

  /** The parser accepts exactly the tails that start with a well-formed chain, and finds its
      last mask and the bytes after it. */
  lemma ParseExact(d: Datagram, sack: Option<Mask>, payload: seq<Byte>)
    ensures ParseChain(d.header.ext, None, d.tail) == Some(Parsed(sack, payload))
       <==> exists exts :: ValidChain(exts) && FirstType(exts) == d.header.ext
                           && d.tail == Chain(exts) + payload && LastSack(exts, None) == sack
  {
    if ParseChain(d.header.ext, None, d.tail) == Some(Parsed(sack, payload)) {
      var exts := ParsedIsChain(d.header.ext, None, d.tail);
    }
    if exts :| ValidChain(exts) && FirstType(exts) == d.header.ext
               && d.tail == Chain(exts) + payload && LastSack(exts, None) == sack {
      ChainParses(exts, None, payload);
    }
  }
}
