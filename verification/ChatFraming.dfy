/** Message frames over a byte stream: four bytes of length, least significant first, a type
    byte, the body. */
module ChatFraming {
  import opened Serial

  const MAX_FRAME := 64 * 1024

  datatype Frame = Frame(typ: Byte, body: seq<Byte>)

  function LengthBytes(n: U32): seq<Byte> {
    [n % 0x100, n / 0x100 % 0x100, n / 0x1_0000 % 0x100, n / 0x100_0000 % 0x100]
  }

  function LengthOf(buf: seq<Byte>): U32
    requires |buf| >= 4
  {
    W32((buf[0] as int) + 0x100 * (buf[1] as int) + 0x1_0000 * (buf[2] as int) + 0x100_0000 * (buf[3] as int))
  }

  /** `encode`; the length is kept in 32 bits. */
  function Encode(f: Frame): seq<Byte> {
    LengthBytes(W32(1 + |f.body|)) + [f.typ] + f.body
  }

  /** The parser's buffer and its flag as a value. */
  datatype Parser = Parser(buf: seq<Byte>, broken: bool)

  function Fed(p: Parser, d: seq<Byte>): Parser {
    p.(buf := p.buf + d)
  }

  function Next(p: Parser): (Parser, Option<Frame>) {
    if p.broken || |p.buf| < 4 then (p, None)
    else
      var n := LengthOf(p.buf);
      if n < 1 || n > MAX_FRAME then (Parser([], true), None)
      else if |p.buf| < 4 + n then (p, None)
      else (p.(buf := p.buf[4 + n..]), Some(Frame(p.buf[4], p.buf[5..4 + n])))
  }

  class FrameParser {
    var buf: seq<Byte>
    var broken: bool

    ghost function State(): Parser
      reads this
    {
      Parser(buf, broken)
    }

    constructor ()
      ensures State() == Parser([], false)
    {
      buf, broken := [], false;
    }

    method Feed(d: seq<Byte>)
      modifies this`buf
      ensures State() == Fed(old(State()), d)
    {
      buf := buf + d;
    }

    method NextFrame() returns (f: Option<Frame>)
      modifies this
      ensures (State(), f) == Next(old(State()))
    {
      if broken || |buf| < 4 {
        return None;
      }
      var n := LengthOf(buf);
      if n < 1 || n > MAX_FRAME {
        broken := true;
        buf := [];
        return None;
      }
      if |buf| < 4 + n {
        return None;
      }
      f := Some(Frame(buf[4], buf[5..4 + n]));
      buf := buf[4 + n..];
    }
  }

  // ---------------------------------------------------------------- one frame

  lemma LengthRoundTrip(n: U32, rest: seq<Byte>)
    ensures LengthOf(LengthBytes(n) + rest) == n
  {
    var b := LengthBytes(n) + rest;
    assert b[0] == n % 0x100 && b[1] == n / 0x100 % 0x100;
    assert b[2] == n / 0x1_0000 % 0x100 && b[3] == n / 0x100_0000 % 0x100;
    assert n / 0x1_0000 == n / 0x100 / 0x100 && n / 0x100_0000 == n / 0x100 / 0x100 / 0x100;
  }

  /** A frame whose body is at most 65,535 bytes is what the parser finds at the front. */
  lemma NextOfEncoded(f: Frame, rest: seq<Byte>)
    requires |f.body| < MAX_FRAME
    ensures Next(Parser(Encode(f) + rest, false)) == (Parser(rest, false), Some(f))
  {
    var n := 1 + |f.body|;
    var b := Encode(f) + rest;
    assert b == LengthBytes(n) + ([f.typ] + f.body + rest);
    LengthRoundTrip(n, [f.typ] + f.body + rest);
    assert b[4] == f.typ && b[5..4 + n] == f.body && b[4 + n..] == rest;
  }

  /** With less than a whole frame the parser waits. */
  lemma NextOfPartial(f: Frame, part: seq<Byte>)
    requires |f.body| < MAX_FRAME && part <= Encode(f) && part != Encode(f)
    ensures Next(Parser(part, false)) == (Parser(part, false), None)
  {
    var n := 1 + |f.body|;
    if |part| >= 4 {
      assert part == LengthBytes(n) + part[4..] by {
        assert part[..4] == Encode(f)[..4] == LengthBytes(n);
      }
      LengthRoundTrip(n, part[4..]);
    }
  }

  /** A length of nothing, or above the limit, breaks the stream for good. */
  lemma BadLengthBreaks(n: U32, rest: seq<Byte>)
    requires n < 1 || n > MAX_FRAME
    ensures Next(Parser(LengthBytes(n) + rest, false)) == (Parser([], true), None)
    ensures forall d :: Next(Fed(Parser([], true), d)) == (Fed(Parser([], true), d), None)
  {
    LengthRoundTrip(n, rest);
  }

  // ---------------------------------------------------------------- a stream of frames

  function EncodeAll(fs: seq<Frame>): seq<Byte> {
    if fs == [] then [] else Encode(fs[0]) + EncodeAll(fs[1..])
  }

  /** What the application does with the parser: hand it the next piece of the stream, or ask for
      a frame. */
  datatype Use = Feed(d: seq<Byte>) | Ask

  function Received(uses: seq<Use>): seq<Byte> {
    if uses == [] then [] else Received(uses[..|uses| - 1]) + if uses[|uses| - 1].Feed? then uses[|uses| - 1].d else []
  }

  /** The parser after some uses, and the frames it has returned. */
  function Session(uses: seq<Use>): (Parser, seq<Frame>) {
    if uses == [] then (Parser([], false), [])
    else
      var (p, fs) := Session(uses[..|uses| - 1]);
      match uses[|uses| - 1]
      case Feed(d) => (Fed(p, d), fs)
      case Ask =>
        var (p', f) := Next(p);
        (p', if f.Some? then fs + [f.value] else fs)
  }

  ghost predicate Bounded(fs: seq<Frame>) {
    forall i :: 0 <= i < |fs| ==> |fs[i].body| < MAX_FRAME
  }

  lemma {:induction false} EncodeAllSplit(a: seq<Frame>, b: seq<Frame>)
    ensures EncodeAll(a + b) == EncodeAll(a) + EncodeAll(b)
  {
    if a == [] {
      assert a + b == b;
    } else {
      assert (a + b)[1..] == a[1..] + b;
      EncodeAllSplit(a[1..], b);
    }
  }

  /** The parser never runs ahead and never breaks: what it returned and what it holds make up
      what it was given. */
  ghost predicate InStep(p: Parser, done: seq<Frame>, given: seq<Byte>, fs: seq<Frame>) {
    && !p.broken && done <= fs
    && EncodeAll(done) + p.buf == given
    && given <= EncodeAll(fs)
  }

  lemma RestOfStream(done: seq<Frame>, buf: seq<Byte>, fs: seq<Frame>)
    requires done <= fs && EncodeAll(done) + buf <= EncodeAll(fs)
    ensures buf <= EncodeAll(fs[|done|..])
  {
    var todo := fs[|done|..];
    assert fs == done + todo;
    EncodeAllSplit(done, todo);
    PrefixDrop(EncodeAll(done), buf, EncodeAll(todo));
  }

  lemma PrefixDrop(a: seq<Byte>, b: seq<Byte>, c: seq<Byte>)
    requires a + b <= a + c
    ensures b <= c
  {
    assert b == (a + b)[|a|..] && c == (a + c)[|a|..];
    assert (a + b)[|a|..] == (a + c)[|a|..|a + b|];
  }

  lemma AskInStep(p: Parser, done: seq<Frame>, given: seq<Byte>, fs: seq<Frame>)
    requires InStep(p, done, given, fs) && Bounded(fs)
    ensures var (p', f) := Next(p);
            InStep(p', if f.Some? then done + [f.value] else done, given, fs)
  {
    RestOfStream(done, p.buf, fs);
    var todo := fs[|done|..];
    if todo == [] {
      assert p.buf == [];
    } else {
      var f := todo[0];
      assert f == fs[|done|];
      var code := Encode(f);
      assert EncodeAll(todo) == code + EncodeAll(todo[1..]);
      if |p.buf| >= |code| {
        var rest := p.buf[|code|..];
        assert p.buf == code + rest by {
          assert p.buf[..|code|] == EncodeAll(todo)[..|code|] == code;
        }
        NextOfEncoded(f, rest);
        OneMoreDone(done, f, rest, p.buf, given);
        assert done + [f] == fs[..|done| + 1];
      } else {
        assert p.buf == EncodeAll(todo)[..|p.buf|] == code[..|p.buf|];
        NextOfPartial(f, p.buf);
      }
    }
  }

  lemma OneMoreDone(done: seq<Frame>, f: Frame, rest: seq<Byte>, buf: seq<Byte>, given: seq<Byte>)
    requires buf == Encode(f) + rest && EncodeAll(done) + buf == given
    ensures EncodeAll(done + [f]) + rest == given
  {
    EncodeAllSplit(done, [f]);
    assert [f][1..] == [];
    assert EncodeAll([f]) == Encode(f) + [] == Encode(f);
    assert (EncodeAll(done) + Encode(f)) + rest == EncodeAll(done) + (Encode(f) + rest);
  }

  lemma {:induction false} SessionInStep(uses: seq<Use>, fs: seq<Frame>)
    requires Bounded(fs) && Received(uses) <= EncodeAll(fs)
    ensures InStep(Session(uses).0, Session(uses).1, Received(uses), fs)
    decreases |uses|
  {
    if uses == [] {
      assert EncodeAll([]) + [] == [];
    } else {
      var init, last := uses[..|uses| - 1], uses[|uses| - 1];
      assert Received(init) <= Received(uses);
      SessionInStep(init, fs);
      var (p, done) := Session(init);
      match last {
        case Feed(d) => assert EncodeAll(done) + (p.buf + d) == (EncodeAll(done) + p.buf) + d;
        case Ask =>
          assert Received(init) + [] == Received(init);
          AskInStep(p, done, Received(init), fs);
      }
    }
  }

  function Asks(n: nat): seq<Use> {
    if n == 0 then [] else Asks(n - 1) + [Ask]
  }

  /** How far the frames returned have got after `n` more questions. */
  function Reached(done: nat, n: nat, total: nat): nat {
    if done + n < total then done + n else total
  }

  /** Asking takes the frames that are there, one each time. */
  lemma {:induction false} AskAll(uses: seq<Use>, fs: seq<Frame>, n: nat)
    requires Bounded(fs) && Received(uses) == EncodeAll(fs) && |Session(uses).1| <= |fs|
    ensures Received(uses + Asks(n)) == EncodeAll(fs)
    ensures Session(uses + Asks(n)).1 == fs[..Reached(|Session(uses).1|, n, |fs|)]
    decreases n
  {
    if n == 0 {
      SessionInStep(uses, fs);
      assert uses + Asks(0) == uses;
    } else {
      var before := uses + Asks(n - 1);
      AskAll(uses, fs, n - 1);
      assert uses + Asks(n) == before + [Ask];
      OneMoreAsk(before, fs, Reached(|Session(uses).1|, n - 1, |fs|));
    }
  }

  lemma OneMoreAsk(before: seq<Use>, fs: seq<Frame>, done: nat)
    requires Bounded(fs) && Received(before) == EncodeAll(fs) && done <= |fs| && Session(before).1 == fs[..done]
    ensures Received(before + [Ask]) == EncodeAll(fs)
    ensures Session(before + [Ask]).1 == if done < |fs| then fs[..done + 1] else fs
  {
    assert (before + [Ask])[..|before|] == before;
    assert Received(before) + [] == Received(before);
    OneAsk(before, fs);
    assert fs[..|fs|] == fs;
  }

  /** Once everything has been given, asking returns the next frame while there is one. */
  lemma OneAsk(uses: seq<Use>, fs: seq<Frame>)
    requires Bounded(fs) && Received(uses) == EncodeAll(fs)
    ensures var (p, done) := Session(uses);
            && done <= fs
            && (|done| < |fs| ==> Next(p).1 == Some(fs[|done|]))
            && (|done| == |fs| ==> Next(p) == (p, None) && p.buf == [])
  {
    SessionInStep(uses, fs);
    var (p, done) := Session(uses);
    var todo := fs[|done|..];
    RestOfStream(done, p.buf, fs);
    assert fs == done + todo;
    EncodeAllSplit(done, todo);
    assert p.buf == EncodeAll(todo);
    if todo != [] {
      NextOfEncoded(todo[0], EncodeAll(todo[1..]));
    }
  }

  /** The round trip: however the encoded messages are cut into pieces, and however often the
      parser is asked in between, once all has been given and the parser drained, the frames
      returned are exactly the messages in order, the buffer is empty and nothing broke. */
  lemma FramesRoundTrip(uses: seq<Use>, fs: seq<Frame>, n: nat)
    requires Bounded(fs) && Received(uses) == EncodeAll(fs) && n >= |fs|
    ensures Session(uses + Asks(n)) == (Parser([], false), fs)
  {
    SessionInStep(uses, fs);
    AskAll(uses, fs, n);
    SessionInStep(uses + Asks(n), fs);
    assert fs[..|fs|] == fs;
    OneAsk(uses + Asks(n), fs);
  }
}
