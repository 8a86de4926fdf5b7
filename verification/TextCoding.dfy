/**
 TextDecoder and TextEncoder of the JavaScript client for utf-8, not fatal
 (examples/echo/ws-echo/js-client/encoding.js): streaming, byte order mark, and a
 decoder that pushes bytes back into the stream it reads from.
 */
module TextCoding {
  import opened Sequences
  import opened Bytes
  import opened Utf8
  import opened Utf16

  const END_OF_STREAM := -1

  class Stream {
    var tokens: seq<Byte>

    constructor (tokens: seq<Byte>)
      ensures this.tokens == tokens
    {
      this.tokens := tokens;
    }

    method Read() returns (t: int)
      modifies this
      ensures old(tokens) == [] ==> t == END_OF_STREAM && tokens == []
      ensures old(tokens) != [] ==> t == old(tokens)[0] && tokens == old(tokens)[1..]
    {
      if |tokens| == 0 {
        return END_OF_STREAM;
      }
      t := tokens[0];
      tokens := tokens[1..];
    }

    method Prepend(token: Byte)
      modifies this
      ensures tokens == [token] + old(tokens)
    {
      tokens := [token] + tokens;
    }
  }

  /** What a handler call returns. */
  datatype Answer = Finished | Continue | Emit(t: Token)

  function AsAnswer(out: seq<Token>): Answer {
    if out == [] then Continue else Emit(out[0])
  }

  /** One handler call on values: new variables, answer, and whether the byte went back. */
  function Handle(d: Dec, bite: int): (Dec, Answer, bool)
    requires bite == END_OF_STREAM || 0 <= bite < 0x100
  {
    if bite == END_OF_STREAM then
      if d.needed != 0 then (d.(needed := 0), Emit(Bad), false) else (d, Finished, false)
    else if d.needed == 0 then (Lead(d, bite).0, AsAnswer(Lead(d, bite).1), false)
    else if !Continues(d, bite) then (INITIAL, Emit(Bad), true)
    else (Trail(d, bite).0, AsAnswer(Trail(d, bite).1), false)
  }

  class Utf8Decoder {
    var codePoint: int
    var bytesSeen: int
    var bytesNeeded: int
    var lowerBoundary: int
    var upperBoundary: int

    function State(): Dec
      reads this
    {
      Dec(codePoint, bytesSeen, bytesNeeded, lowerBoundary, upperBoundary)
    }

    constructor ()
      ensures State() == INITIAL
    {
      codePoint, bytesSeen, bytesNeeded, lowerBoundary, upperBoundary := 0, 0, 0, 0x80, 0xBF;
    }

    method Handler(stream: Stream, bite: int) returns (r: Answer)
      requires bite == END_OF_STREAM || 0 <= bite < 0x100
      modifies this, stream
      ensures State() == Handle(old(State()), bite).0 && r == Handle(old(State()), bite).1
      ensures stream.tokens == if Handle(old(State()), bite).2 then [bite as Byte] + old(stream.tokens) else old(stream.tokens)
    {
      if bite == END_OF_STREAM && bytesNeeded != 0 {
        bytesNeeded := 0;
        return Emit(Bad);
      }
      if bite == END_OF_STREAM {
        return Finished;
      }
      if bytesNeeded == 0 {
        if bite <= 0x7F {
          return Emit(Point(bite));
        }
        if 0xC2 <= bite <= 0xDF {
          bytesNeeded := 1;
          codePoint := bite - 0xC0;
        } else if 0xE0 <= bite <= 0xEF {
          if bite == 0xE0 { lowerBoundary := 0xA0; }
          if bite == 0xED { upperBoundary := 0x9F; }
          bytesNeeded := 2;
          codePoint := bite - 0xE0;
        } else if 0xF0 <= bite <= 0xF4 {
          if bite == 0xF0 { lowerBoundary := 0x90; }
          if bite == 0xF4 { upperBoundary := 0x8F; }
          bytesNeeded := 3;
          codePoint := bite - 0xF0;
        } else {
          return Emit(Bad);
        }
        codePoint := Shl6(codePoint, bytesNeeded);
        return Continue;
      }
      if !(lowerBoundary <= bite <= upperBoundary) {
        codePoint, bytesNeeded, bytesSeen := 0, 0, 0;
        lowerBoundary, upperBoundary := 0x80, 0xBF;
        stream.Prepend(bite);
        return Emit(Bad);
      }
      lowerBoundary, upperBoundary := 0x80, 0xBF;
      bytesSeen := bytesSeen + 1;
      codePoint := codePoint + Shl6(bite - 0x80, bytesNeeded - bytesSeen);
      if bytesSeen != bytesNeeded {
        return Continue;
      }
      var result := codePoint;
      codePoint, bytesNeeded, bytesSeen := 0, 0, 0;
      return Emit(Point(result));
    }
  }

  // ---- The decode call ----

  /** The decoder's variables can have been reached from the initial ones. */
  ghost predicate Sound(d: Dec) {
    exists p :: Prefix(p) && d == After(p)
  }

  lemma InitialSound()
    ensures Sound(INITIAL)
  {
    assert After([]) == INITIAL;
  }

  lemma RunSound(d: Dec, bytes: seq<Byte>)
    requires Sound(d)
    ensures Sound(Run(d, bytes).0) && GoodTokens(Run(d, bytes).1)
  {
    var p :| Prefix(p) && d == After(p);
    var q := RunAccounts(p, bytes);
  }

  /** The fields of a TextDecoder; dec matters only between the calls of a stream. */
  datatype Text = Text(streaming: bool, bomSeen: bool, dec: Dec)

  /** The byte order mark rule: result and new value of the "BOM seen" flag. */
  function Strip(ignoreBom: bool, seen: bool, cs: seq<CodePoint>): (bool, seq<CodePoint>) {
    if cs == [] || ignoreBom || seen then (seen, cs)
    else (true, if cs[0] == 0xFEFF then cs[1..] else cs)
  }

  /** The decoder that a call starts with, and the tokens the call produces. */
  function StartDec(t: Text): Dec { if t.streaming then t.dec else INITIAL }

  function CallTokens(t: Text, bytes: seq<Byte>, stream: bool): seq<Token> {
    var (d, out) := Run(StartDec(t), bytes);
    if stream then out else out + Flush(d)
  }

  lemma CallTokensGood(t: Text, bytes: seq<Byte>, stream: bool)
    requires t.streaming ==> Sound(t.dec)
    ensures GoodTokens(CallTokens(t, bytes, stream))
  {
    InitialSound();
    RunSound(StartDec(t), bytes);
  }

  /** decode(bytes, {stream: stream}) on values: the fields afterwards and the code points. */
  ghost function Call(t: Text, ignoreBom: bool, bytes: seq<Byte>, stream: bool): (Text, seq<CodePoint>)
    requires t.streaming ==> Sound(t.dec)
  {
    CallTokensGood(t, bytes, stream);
    var cs := Values(CallTokens(t, bytes, stream));
    var (seen, shown) := Strip(ignoreBom, t.streaming && t.bomSeen, cs);
    (Text(stream, seen, if stream then Run(StartDec(t), bytes).0 else INITIAL), shown)
  }

  lemma CallSound(t: Text, ignoreBom: bool, bytes: seq<Byte>, stream: bool)
    requires t.streaming ==> Sound(t.dec)
    ensures Call(t, ignoreBom, bytes, stream).0.streaming ==> Sound(Call(t, ignoreBom, bytes, stream).0.dec)
  {
    InitialSound();
    RunSound(StartDec(t), bytes);
  }

  /** One handler call is one step of the run over what is left in the stream. */
  lemma HandleRuns(d: Dec, b: Byte, rest: seq<Byte>)
    ensures var (d', r, back) := Handle(d, b);
            var left := if back then [b] + rest else rest;
            && !r.Finished?
            && Run(d, [b] + rest) == (Run(d', left).0, (if r.Emit? then [r.t] else []) + Run(d', left).1)
            && (back ==> d.needed != 0 && d'.needed == 0)
  {
    var all := [b] + rest;
    assert all[0] == b && all[1..] == rest;
    var (d', r, back) := Handle(d, b);
    if back {
      var f := Lead(INITIAL, b);
      Assoc([Bad], f.1, Run(f.0, rest).1);
    } else if r.Emit? {
      assert Feed(d, b).1 == [r.t];
    } else {
      assert Feed(d, b).1 == [];
      assert [] + Run(d', rest).1 == Run(d', rest).1;
    }
  }

  class TextDecoder {
    var streaming: bool
    var bomSeen: bool
    var decoder: Utf8Decoder?
    const ignoreBom: bool

    ghost predicate Valid()
      reads this, decoder
    {
      streaming ==> decoder != null && Sound(decoder.State())
    }

    function View(): Text
      reads this, decoder
    {
      Text(streaming, bomSeen, if decoder == null then INITIAL else decoder.State())
    }

    constructor (ignoreBom: bool)
      ensures Valid() && !streaming && this.ignoreBom == ignoreBom
    {
      this.ignoreBom, streaming, bomSeen, decoder := ignoreBom, false, false, null;
    }

    /** The main loop of decode: until the stream is empty, although bytes are pushed back. */
    method Consume(dec: Utf8Decoder, input: Stream) returns (out: seq<Token>)
      modifies dec, input
      ensures input.tokens == []
      ensures (dec.State(), out) == Run(old(dec.State()), old(input.tokens))
    {
      out := [];
      assert out + Run(dec.State(), input.tokens).1 == Run(dec.State(), input.tokens).1;
      while |input.tokens| > 0
        invariant Run(old(dec.State()), old(input.tokens))
               == (Run(dec.State(), input.tokens).0, out + Run(dec.State(), input.tokens).1)
        decreases 2 * |input.tokens| + if dec.State().needed != 0 then 1 else 0
      {
        ghost var d, all := dec.State(), input.tokens;
        var bite := input.Read();
        assert all == [bite as Byte] + input.tokens;
        HandleRuns(d, bite, input.tokens);
        var r := dec.Handler(input, bite);
        if r.Emit? {
          Assoc(out, [r.t], Run(dec.State(), input.tokens).1);
          out := out + [r.t];
        } else {
          assert [] + Run(dec.State(), input.tokens).1 == Run(dec.State(), input.tokens).1;
        }
      }
      assert out + [] == out;
    }

    /** decode up to the byte order mark: a new decoder unless streaming, both loops. */
    method ReadTokens(bytes: seq<Byte>, stream: bool) returns (out: seq<Token>)
      requires Valid()
      modifies this, decoder
      ensures decoder == old(decoder) || decoder == null || fresh(decoder)
      ensures stream ==> decoder != null
      ensures out == CallTokens(old(View()), bytes, stream)
      ensures View() == Text(stream, old(streaming && bomSeen), if stream then Run(StartDec(old(View())), bytes).0 else INITIAL)
    {
      hide Run, Sound;
      if !streaming {
        decoder := new Utf8Decoder();
        bomSeen := false;
      }
      streaming := stream;
      var input := new Stream(bytes);
      var dec := decoder;
      out := Consume(dec, input);
      if !stream {
        // do { ... } while (!endOfStream): the stream is empty, so this runs once
        var bite := input.Read();
        var r := dec.Handler(input, bite);
        if r.Emit? { out := out + [r.t]; } else { assert out + [] == out; }
        decoder := null;
      }
    }

    /** TextDecoder.decode with the option {stream: stream}. */
    method Decode(bytes: seq<Byte>, stream: bool) returns (s: seq<Uint16>)
      requires Valid()
      modifies this, decoder
      ensures Valid() && (decoder == old(decoder) || decoder == null || fresh(decoder))
      ensures View() == Call(old(View()), ignoreBom, bytes, stream).0
      ensures s == ToUtf16(Call(old(View()), ignoreBom, bytes, stream).1)
    {
      CallTokensGood(View(), bytes, stream);
      CallSound(View(), ignoreBom, bytes, stream);
      hide Run, Sound, GoodTokens, ToUtf16, CallTokens;
      var out := ReadTokens(bytes, stream);
      var cs := Values(out);
      if |cs| > 0 && !ignoreBom && !bomSeen {
        if cs[0] == 0xFEFF {
          bomSeen := true;
          cs := cs[1..];
        } else {
          bomSeen := true;
        }
      }
      s := CodePointsToString(cs);
    }
  }
}
