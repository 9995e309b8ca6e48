/**
  Compressed streams built from their parts, and what the decoder makes of
  them. A Scheme 1 stream is a sequence of tokens, each a literal byte or a
  match; a Scheme 2 stream is a sequence of bytes. A record is a control
  unit selecting the scheme, the stream, and a control unit ending the
  record. The encoders here are a specification device: they lay down the
  bit layout the decoder reads, so that decoding can be stated as the
  inverse of encoding.
 */
module Streams {
  import opened Bits
  import opened HistoryBuffer
  import opened Matches
  import opened Sldc

  datatype Token = Literal(b: byte) | Reference(count: nat, displacement: nat)

  /** A match token the format can express without colliding with an escape. */
  predicate ValidToken(t: Token)
  {
    t.Reference? ==> 2 <= t.count <= MaxCount && t.displacement < Size
  }

  predicate ValidTokens(ts: seq<Token>)
  {
    forall i :: 0 <= i < |ts| ==> ValidToken(ts[i])
  }

  /** The bits of one Scheme 1 token: a clear flag and the byte, or the bits of a match unit. */
  function TokenBits(t: Token): (bs: seq<bool>)
    requires ValidToken(t)
    ensures |bs| >= 9
  {
    match t
    case Literal(b) => [false] + ByteBits(b)
    case Reference(count, displacement) => MatchBits(count, displacement)
  }

  /** The bits of a Scheme 1 token stream, one token after the other. */
  function TokensBits(ts: seq<Token>): (bs: seq<bool>)
    requires ValidTokens(ts)
    ensures |ts| > 0 ==> |bs| >= 9
  {
    if |ts| == 0 then [] else TokenBits(ts[0]) + TokensBits(ts[1..])
  }

  /**
    The reference meaning of one token after the output `w`: a literal adds
    its byte; a match adds the copy that reads the ring holding `w`.
   */
  function Expand1(w: seq<byte>, t: Token): (w': seq<byte>)
    requires ValidToken(t)
    ensures t.Literal? ==> w' == w + [t.b]
    ensures t.Reference? ==> |w'| == |w| + t.count && w'[..|w|] == w
  {
    w + TokenBytes(HistoryOf(w), t)
  }

  /** The bytes one token emits when matches read the ring `h`. */
  function TokenBytes(h: History, t: Token): (bs: seq<byte>)
    requires ValidToken(t)
    ensures |bs| == if t.Literal? then 1 else t.count
  {
    match t
    case Literal(b) => [b]
    case Reference(count, displacement) => Copy(h, displacement, count)
  }

  /** The reference meaning of a token stream: the output after `w` once every token has been expanded. */
  function Expand(w: seq<byte>, ts: seq<Token>): (w': seq<byte>)
    requires ValidTokens(ts)
    ensures |w| <= |w'| && w'[..|w|] == w
    decreases |ts|
  {
    if |ts| == 0 then w else Expand(Expand1(w, ts[0]), ts[1..])
  }

  /** The bits of one Scheme 2 byte: the byte, and an extra clear bit after a 0xFF byte. */
  function Scheme2UnitBits(b: byte): (bs: seq<bool>)
    ensures |bs| == if b == 0xFF then 9 else 8
  {
    ByteBits(b) + (if b == 0xFF then [false] else [])
  }

  /** The bits of a Scheme 2 stream, one byte after the other. */
  function Scheme2Bits(data: seq<byte>): (bs: seq<bool>)
  {
    if |data| == 0 then [] else Scheme2UnitBits(data[0]) + Scheme2Bits(data[1..])
  }

  /** The bits of a control unit with the four-bit symbol code `code`. */
  function ControlUnitBits(code: nibble): (bs: seq<bool>)
    ensures |bs| == ControlBits
  {
    ByteBits(0xFF) + [true] + NibbleBits(code)
  }

  /** A control unit in the bits is an escape, and its symbol code is read back. */
  lemma {:induction false} ReadControlUnit(bits: seq<bool>, c: nat, code: nibble)
    requires c + ControlBits <= |bits| && bits[c..c + ControlBits] == ControlUnitBits(code)
    ensures IsEscape(bits, c)
    ensures NibbleAt(bits, c + 9) == code
  {
    ControlUnitEscape(bits, c, code);
    ControlUnitCode(bits, c, code);
  }

  /** The first nine bits of a control unit are the escape. */
  lemma {:induction false} ControlUnitEscape(bits: seq<bool>, c: nat, code: nibble)
    requires c + ControlBits <= |bits| && bits[c..c + ControlBits] == ControlUnitBits(code)
    ensures IsEscape(bits, c)
  {
    var enc := ControlUnitBits(code);
    SliceWithin(bits, c, enc, 0, 8);
    FirstOfThree(ByteBits(0xFF), [true], NibbleBits(code));
    assert Pow2(8) == 256;
    FieldOfBits(bits, c, 0xFF, 8);
    assert bits[c + 8] == enc[8];
  }

  /** The front of a three-part concatenation, and the element right after it. */
  lemma {:induction false} FirstOfThree<T>(x: seq<T>, y: seq<T>, z: seq<T>)
    requires |y| > 0
    ensures (x + y + z)[..|x|] == x && (x + y + z)[|x|] == y[0]
  {
  }

  /** The back of a three-part concatenation. */
  lemma {:induction false} LastOfThree<T>(x: seq<T>, y: seq<T>, z: seq<T>)
    ensures (x + y + z)[|x| + |y|..] == z
  {
  }

  /** The last four bits of a control unit read back as its symbol code. */
  lemma {:induction false} ControlUnitCode(bits: seq<bool>, c: nat, code: nibble)
    requires c + ControlBits <= |bits| && bits[c..c + ControlBits] == ControlUnitBits(code)
    ensures NibbleAt(bits, c + 9) == code
  {
    var enc := ControlUnitBits(code);
    SliceWithin(bits, c, enc, 9, 13);
    LastOfThree(ByteBits(0xFF), [true], NibbleBits(code));
    assert Pow2(4) == 16;
    FieldOfBits(bits, c + 9, code, 4);
  }

  /** Writing a run to the ring of `w` gives the ring of `w` followed by the run. */
  lemma {:induction false} HistoryOfAppend(w: seq<byte>, bs: seq<byte>)
    ensures AddAll(HistoryOf(w), bs) == HistoryOf(w + bs)
  {
    AddAllAppend(Empty(), w, bs);
  }

  /** A step that continues leaves the rest of the loop to the engine it continues with. */
  lemma {:induction false} RunContinues(e: Engine, bits: seq<bool>, classify: nibble -> Control, e': Engine)
    requires Step(e, bits, classify) == Continue(e')
    ensures Run(e, bits, classify) == Run(e', bits, classify)
  {
  }

  /** A literal token in Scheme 1 is decoded as its byte. */
  lemma {:induction false} LiteralStep(e: Engine, bits: seq<bool>, classify: nibble -> Control, t: Token)
    requires t.Literal? && e.mode == Scheme1
    requires e.cursor + |TokenBits(t)| < |bits| && Laid(bits, e.cursor, TokenBits(t))
    ensures Step(e, bits, classify) == Continue(Emit(e, TokenBytes(e.history, t)).(cursor := e.cursor + |TokenBits(t)|))
  {
    LiteralBits(bits, e.cursor, t.b);
    LiteralUnit(e, bits, classify);
    EmitSingle(e, t.b);
  }

  /** The bits of a literal token: a clear flag bit, then the byte. */
  lemma {:induction false} LiteralBits(bits: seq<bool>, c: nat, b: byte)
    requires Laid(bits, c, [false] + ByteBits(b))
    ensures c + 9 <= |bits| && !bits[c] && ByteAt(bits, c + 1) == b
  {
    var enc := [false] + ByteBits(b);
    LaidIsSlice(bits, c, enc);
    assert bits[c] == enc[0];
    SliceWithin(bits, c, enc, 1, 9);
    assert enc[1..9] == ByteBits(b);
    assert Pow2(8) == 256;
    FieldOfBits(bits, c + 1, b, 8);
  }

  /** Emitting a run of one byte is emitting that byte. */
  lemma {:induction false} EmitSingle(e: Engine, b: byte)
    ensures Emit(e, [b]) == AddByte(e, b)
  {
    assert [b][..0] == [];
    assert AddAll(e.history, []) == e.history;
    assert AddAll(e.history, [b]) == Add(AddAll(e.history, []), b);
  }

  /** The bits of a match token parse back to the match, and never start an escape. */
  lemma {:induction false} ReferenceParses(bits: seq<bool>, c: nat, count: nat, displacement: nat)
    requires 2 <= count <= MaxCount && displacement < Size
    requires c + |MatchBits(count, displacement)| < |bits| && Laid(bits, c, MatchBits(count, displacement))
    ensures c + 8 < |bits| && bits[c] && !IsEscape(bits, c)
    ensures ParseMatch(bits, c).Fits?
    ensures ParseMatch(bits, c).m.count == count && ParseMatch(bits, c).m.displacement == displacement
    ensures ParseMatch(bits, c).m.width == |MatchBits(count, displacement)|
  {
    LaidIsSlice(bits, c, MatchBits(count, displacement));
    ParseMatchBits(bits, c, count, displacement);
    CountAboveMaxIsEscape(bits, c);
    EscapeIsNineOnes(bits, c);
  }

  /** The bits of a match unit at the cursor in Scheme 1 are decoded as the copy the match names. */
  lemma {:induction false} ReferenceStep(e: Engine, bits: seq<bool>, classify: nibble -> Control, count: nat, displacement: nat)
    requires 2 <= count <= MaxCount && displacement < Size && e.mode == Scheme1
    requires e.cursor + |MatchBits(count, displacement)| < |bits| && Laid(bits, e.cursor, MatchBits(count, displacement))
    ensures Step(e, bits, classify) == Continue(Emit(e, Copy(e.history, displacement, count)).(cursor := e.cursor + |MatchBits(count, displacement)|))
  {
    ReferenceParses(bits, e.cursor, count, displacement);
    MatchUnit(e, bits, classify);
  }

  /** A match token in Scheme 1 is decoded as its copy, and is never mistaken for an escape. */
  lemma {:induction false} ReferenceTokenStep(e: Engine, bits: seq<bool>, classify: nibble -> Control, t: Token)
    requires t.Reference? && ValidToken(t) && e.mode == Scheme1
    requires e.cursor + |TokenBits(t)| < |bits| && Laid(bits, e.cursor, TokenBits(t))
    ensures Step(e, bits, classify) == Continue(Emit(e, TokenBytes(e.history, t)).(cursor := e.cursor + |TokenBits(t)|))
  {
    assert TokenBits(t) == MatchBits(t.count, t.displacement);
    ReferenceStep(e, bits, classify, t.count, t.displacement);
  }

  /**
    One Scheme 1 token is decoded as the bytes it stands for: they are
    appended to the output and written to the ring, and the cursor moves
    past the token's bits.
   */
  lemma {:induction false} TokenStep(e: Engine, bits: seq<bool>, classify: nibble -> Control, t: Token)
    requires ValidToken(t) && e.mode == Scheme1
    requires e.cursor + |TokenBits(t)| < |bits| && Laid(bits, e.cursor, TokenBits(t))
    ensures Step(e, bits, classify) == Continue(Emit(e, TokenBytes(e.history, t)).(cursor := e.cursor + |TokenBits(t)|))
  {
    if t.Literal? {
      LiteralStep(e, bits, classify, t);
    } else {
      ReferenceTokenStep(e, bits, classify, t);
    }
  }

  /** When the ring holds the output, emitting a token's bytes gives the token's reference meaning, ring included. */
  lemma {:induction false} TokenMeaning(e: Engine, t: Token, e1: Engine, k: nat)
    requires ValidToken(t) && e.history == HistoryOf(e.out)
    requires Lands(e, e1, k, Expand1(e.out, t), HistoryOf(Expand1(e.out, t)))
    ensures Lands(e, e1, k, e.out + TokenBytes(e.history, t), AddAll(e.history, TokenBytes(e.history, t)))
  {
    HistoryOfAppend(e.out, TokenBytes(e.history, t));
  }

  /**
    Whether `t` is the engine `e` becomes after `k` more bits, with output
    `out` and history `history`, in the same mode.
   */
  predicate Lands(e: Engine, t: Engine, k: nat, out: seq<byte>, history: History)
  {
    t.cursor == e.cursor + k && t.out == out && t.history == history && t.mode == e.mode && t.lastValid == e.lastValid
  }

  /** The engine `e` becomes after `k` more bits with output `out` and history `history`. */
  function Landing(e: Engine, k: nat, out: seq<byte>, history: History): (t: Engine)
    ensures Lands(e, t, k, out, history)
  {
    e.(cursor := e.cursor + k, out := out, history := history)
  }

  /** Appending the first element of a run and then the rest of it is appending the run. */
  lemma {:induction false} AppendHead<T>(a: seq<T>, data: seq<T>)
    requires |data| > 0
    ensures a + [data[0]] + data[1..] == a + data
  {
    assert data == [data[0]] + data[1..];
  }

  /** The loop continues past a Scheme 1 token with its reference meaning emitted. */
  lemma {:induction false} TokenRun(e: Engine, bits: seq<bool>, classify: nibble -> Control, t: Token, e1: Engine)
    requires ValidToken(t) && e.mode == Scheme1
    requires e.cursor + |TokenBits(t)| < |bits| && Laid(bits, e.cursor, TokenBits(t))
    requires Lands(e, e1, |TokenBits(t)|, e.out + TokenBytes(e.history, t), AddAll(e.history, TokenBytes(e.history, t)))
    ensures Run(e, bits, classify) == Run(e1, bits, classify)
  {
    TokenStep(e, bits, classify, t);
    assert e1 == Emit(e, TokenBytes(e.history, t)).(cursor := e.cursor + |TokenBits(t)|);
    RunContinues(e, bits, classify, e1);
  }

  /** The tokens after the first are valid too. */
  lemma {:induction false} ValidTail(ts: seq<Token>)
    requires |ts| > 0 && ValidTokens(ts)
    ensures ValidToken(ts[0]) && ValidTokens(ts[1..])
  {
    assert forall i :: 0 <= i < |ts[1..]| ==> ts[1..][i] == ts[i + 1];
  }

  /** The bits of a Scheme 1 stream start with the bits of its first token, followed by the bits of the rest. */
  lemma {:induction false} TokensHead(bits: seq<bool>, c: nat, c1: nat, ts: seq<Token>)
    requires |ts| > 0 && ValidTokens(ts) && c1 == c + |TokenBits(ts[0])|
    requires Laid(bits, c, TokensBits(ts))
    ensures ValidTokens(ts[1..])
    ensures c1 + |TokensBits(ts[1..])| == c + |TokensBits(ts)|
    ensures Laid(bits, c, TokenBits(ts[0])) && Laid(bits, c1, TokensBits(ts[1..]))
  {
    TokensBitsHead(ts);
    LaidSplit(bits, c, TokenBits(ts[0]), TokensBits(ts[1..]));
  }

  /** The bits of a non-empty Scheme 1 stream are the bits of its first token followed by the bits of the rest. */
  lemma {:induction false} TokensBitsHead(ts: seq<Token>)
    requires |ts| > 0 && ValidTokens(ts)
    ensures ValidTokens(ts[1..]) && TokensBits(ts) == TokenBits(ts[0]) + TokensBits(ts[1..])
  {
    ValidTail(ts);
  }

  /** The engine a whole token stream leads to is the one the rest of it leads to after the first token. */
  lemma {:induction false} TokensLands(e: Engine, ts: seq<Token>, t: Engine, e1: Engine, k: nat, n: nat)
    requires |ts| > 0 && ValidTokens(ts) && n <= k
    requires Lands(e, t, k, Expand(e.out, ts), HistoryOf(Expand(e.out, ts)))
    requires ValidToken(ts[0]) && Lands(e, e1, n, Expand1(e.out, ts[0]), HistoryOf(Expand1(e.out, ts[0])))
    ensures ValidTokens(ts[1..])
    ensures Lands(e1, t, k - n, Expand(e1.out, ts[1..]), HistoryOf(Expand(e1.out, ts[1..])))
  {
    ValidTail(ts);
  }

  /**
    A Scheme 1 token stream, followed by at least one more bit, is decoded
    as its reference meaning: the loop goes on from the engine `t` that has
    consumed the stream, emitted the expanded output and holds that output
    in its ring, with Scheme 1 still selected.
   */
  lemma {:induction false} RunTokens(e: Engine, bits: seq<bool>, classify: nibble -> Control, ts: seq<Token>, t: Engine)
    requires ValidTokens(ts)
    requires e.mode == Scheme1 && e.history == HistoryOf(e.out)
    requires e.cursor + |TokensBits(ts)| < |bits| && Laid(bits, e.cursor, TokensBits(ts))
    requires Lands(e, t, |TokensBits(ts)|, Expand(e.out, ts), HistoryOf(Expand(e.out, ts)))
    ensures Run(e, bits, classify) == Run(t, bits, classify)
    decreases |ts|
  {
    if |ts| == 0 {
      assert t == e;
    } else {
      assert ValidToken(ts[0]);
      var w1 := Expand1(e.out, ts[0]);
      var e1 := Landing(e, |TokenBits(ts[0])|, w1, HistoryOf(w1));
      TokensHead(bits, e.cursor, e1.cursor, ts);
      TokensLands(e, ts, t, e1, |TokensBits(ts)|, |TokenBits(ts[0])|);
      TokenMeaning(e, ts[0], e1, |TokenBits(ts[0])|);
      TokenRun(e, bits, classify, ts[0], e1);
      RunTokens(e1, bits, classify, ts[1..], t);
    }
  }

  /** A Scheme 2 byte decoded where its bits lie, when they do not run to the end of the buffer. */
  lemma {:induction false} Scheme2Step(e: Engine, bits: seq<bool>, classify: nibble -> Control, b: byte)
    requires e.mode == Scheme2
    requires e.cursor + |Scheme2UnitBits(b)| < |bits| && bits[e.cursor..e.cursor + |Scheme2UnitBits(b)|] == Scheme2UnitBits(b)
    ensures Step(e, bits, classify)
      == Continue(e.(cursor := e.cursor + |Scheme2UnitBits(b)|, out := e.out + [b], history := Add(e.history, b)))
  {
    var enc, c := Scheme2UnitBits(b), e.cursor;
    SliceWithin(bits, c, enc, 0, 8);
    assert enc[..8] == ByteBits(b);
    Pow2Table();
    FieldOfBits(bits, c, b, 8);
    if b == 0xFF {
      assert bits[c + 8] == enc[8];
    }
    Scheme2ByteUnit(e, bits, classify);
  }

  /** Writing the first byte of a run and then the rest of it is writing the run. */
  lemma {:induction false} AddThenAddAll(h: History, data: seq<byte>)
    requires |data| > 0
    ensures AddAll(Add(h, data[0]), data[1..]) == AddAll(h, data)
  {
    assert data == [data[0]] + data[1..];
    AddAllAppend(h, [data[0]], data[1..]);
    assert AddAll(h, [data[0]]) == Add(h, data[0]) by {
      assert [data[0]][..0] == [];
    }
  }

  /** The bits of a Scheme 2 stream start with the bits of its first byte, followed by the bits of the rest. */
  lemma {:induction false} Scheme2Head(bits: seq<bool>, c: nat, c1: nat, data: seq<byte>)
    requires |data| > 0 && c1 == c + |Scheme2UnitBits(data[0])|
    requires Laid(bits, c, Scheme2Bits(data))
    ensures c1 + |Scheme2Bits(data[1..])| == c + |Scheme2Bits(data)|
    ensures Laid(bits, c, Scheme2UnitBits(data[0])) && Laid(bits, c1, Scheme2Bits(data[1..]))
  {
    LaidSplit(bits, c, Scheme2UnitBits(data[0]), Scheme2Bits(data[1..]));
  }

  /** The loop continues past a Scheme 2 byte with the byte emitted. */
  lemma {:induction false} Scheme2Run(e: Engine, bits: seq<bool>, classify: nibble -> Control, b: byte, e1: Engine)
    requires e.mode == Scheme2
    requires e.cursor + |Scheme2UnitBits(b)| < |bits| && Laid(bits, e.cursor, Scheme2UnitBits(b))
    requires Lands(e, e1, |Scheme2UnitBits(b)|, e.out + [b], Add(e.history, b))
    ensures Run(e, bits, classify) == Run(e1, bits, classify)
  {
    LaidIsSlice(bits, e.cursor, Scheme2UnitBits(b));
    Scheme2Step(e, bits, classify, b);
    assert e1 == e.(cursor := e.cursor + |Scheme2UnitBits(b)|, out := e.out + [b], history := Add(e.history, b));
    RunContinues(e, bits, classify, e1);
  }

  /** The engine a whole byte stream leads to is the one the rest of it leads to after the first byte. */
  lemma {:induction false} Scheme2Lands(e: Engine, data: seq<byte>, t: Engine, e1: Engine, k: nat, n: nat)
    requires |data| > 0 && n <= k
    requires Lands(e, t, k, e.out + data, AddAll(e.history, data))
    requires Lands(e, e1, n, e.out + [data[0]], Add(e.history, data[0]))
    ensures Lands(e1, t, k - n, e1.out + data[1..], AddAll(e1.history, data[1..]))
  {
    AddThenAddAll(e.history, data);
    AppendHead(e.out, data);
  }

  /**
    A Scheme 2 byte stream, followed by at least one more bit, is decoded as
    the bytes themselves, each written to the ring in order: the loop goes
    on from the engine `t` that has consumed the stream and emitted it.
   */
  lemma {:induction false} RunScheme2(e: Engine, bits: seq<bool>, classify: nibble -> Control, data: seq<byte>, t: Engine)
    requires e.mode == Scheme2
    requires e.cursor + |Scheme2Bits(data)| < |bits| && Laid(bits, e.cursor, Scheme2Bits(data))
    requires Lands(e, t, |Scheme2Bits(data)|, e.out + data, AddAll(e.history, data))
    ensures Run(e, bits, classify) == Run(t, bits, classify)
    decreases |data|
  {
    if |data| == 0 {
      assert e.out + data == e.out;
      assert t == e;
    } else {
      var b := data[0];
      var e1 := Landing(e, |Scheme2UnitBits(b)|, e.out + [b], Add(e.history, b));
      Scheme2Head(bits, e.cursor, e1.cursor, data);
      Scheme2Lands(e, data, t, e1, |Scheme2Bits(data)|, |Scheme2UnitBits(b)|);
      Scheme2Run(e, bits, classify, b, e1);
      RunScheme2(e1, bits, classify, data[1..], t);
    }
  }
}
