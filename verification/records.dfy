/**
  Whole records: a control unit selecting a scheme, a compressed stream in
  that scheme, and a control unit ending the record, followed by any bits
  at all. Decoding such a record appends the stream's reference meaning to
  the bytes the caller's vector already holds and drops the last four bytes
  of the vector; the bits after the closing control unit are never looked
  at.
 */
module Records {
  import opened Bits
  import opened HistoryBuffer
  import opened Matches
  import opened Sldc
  import opened Streams

  /** The bits of a Scheme 1 record: the opening control unit, the tokens, the closing control unit, then `tail`. */
  function Scheme1Record(open: nibble, ts: seq<Token>, close: nibble, tail: seq<bool>): (bits: seq<bool>)
    requires ValidTokens(ts)
    ensures |bits| == 2 * ControlBits + |TokensBits(ts)| + |tail|
  {
    ControlUnitBits(open) + TokensBits(ts) + ControlUnitBits(close) + tail
  }

  /** The bits of a Scheme 2 record: the opening control unit, the bytes, the closing control unit, then `tail`. */
  function Scheme2Record(open: nibble, data: seq<byte>, close: nibble, tail: seq<bool>): (bits: seq<bool>)
    ensures |bits| == 2 * ControlBits + |Scheme2Bits(data)| + |tail|
  {
    ControlUnitBits(open) + Scheme2Bits(data) + ControlUnitBits(close) + tail
  }

  /** The three leading parts of `a + b + c + tail` lie one after the other from bit 0. */
  lemma {:induction false} RecordLayout(bits: seq<bool>, a: seq<bool>, b: seq<bool>, c: seq<bool>, tail: seq<bool>)
    requires bits == a + b + c + tail
    ensures Laid(bits, 0, a) && Laid(bits, |a|, b) && Laid(bits, |a| + |b|, c)
  {
    LaidIsSlice(bits, 0, bits);
    LaidSplit(bits, 0, a + b + c, tail);
    LaidSplit(bits, 0, a + b, c);
    LaidSplit(bits, 0, a, b);
  }

  /**
    A record that opens with a control unit selecting a scheme starts the
    loop again thirteen bits in, in that scheme, with nothing emitted and
    an empty history.
   */
  lemma {:induction false} OpenRecord(bits: seq<bool>, classify: nibble -> Control, code: nibble, m: Mode)
    requires Selects(classify(code)) && ModeAfter(classify(code)) == m
    requires Laid(bits, 0, ControlUnitBits(code))
    ensures Run(Start(), bits, classify) == Run(Engine(ControlBits, m, m, Empty(), []), bits, classify)
  {
    LaidIsSlice(bits, 0, ControlUnitBits(code));
    ReadControlUnit(bits, 0, code);
    ControlUnit(Start(), bits, classify);
    RunContinues(Start(), bits, classify, Engine(ControlBits, m, m, Empty(), []));
  }

  /**
    A control unit ending the record stops the loop right after it, with
    the output and history as they were.
   */
  lemma {:induction false} CloseRecord(t: Engine, bits: seq<bool>, classify: nibble -> Control, code: nibble)
    requires t.mode != End && (classify(code) == EndOfRecord || classify(code) == EndMarker)
    requires Laid(bits, t.cursor, ControlUnitBits(code))
    ensures Run(t, bits, classify) == Stopped(t.(cursor := t.cursor + ControlBits, mode := End))
  {
    LaidIsSlice(bits, t.cursor, ControlUnitBits(code));
    ReadControlUnit(bits, t.cursor, code);
    ControlUnit(t, bits, classify);
    var f := t.(cursor := t.cursor + ControlBits, mode := End);
    RunContinues(t, bits, classify, f);
    assert Step(f, bits, classify) == Finish;
  }

  /**
    A loop that stops having emitted `last.out` leaves the caller's vector
    holding `prior + last.out` less its trailer, or fails for want of one.
   */
  lemma {:induction false} DecodeStopped(bits: seq<bool>, classify: nibble -> Control, prior: seq<byte>, last: Engine)
    requires Run(Start(), bits, classify) == Stopped(last)
    ensures var all := prior + last.out;
      && (|all| < TrailerBytes ==> Decode(bits, classify, prior) == Failed(TrailerMissing(|all|)))
      && (|all| >= TrailerBytes ==> Decode(bits, classify, prior) == Decoded(all[..|all| - TrailerBytes]))
  {
  }

  /** The loop over a Scheme 1 record ends after the closing control unit with the tokens' reference meaning emitted. */
  lemma {:induction false} Scheme1RecordRun(classify: nibble -> Control, open: nibble, ts: seq<Token>, close: nibble, tail: seq<bool>)
    returns (last: Engine)
    requires classify(open) == SelectScheme1 || classify(open) == Reset1
    requires classify(close) == EndOfRecord || classify(close) == EndMarker
    requires ValidTokens(ts)
    ensures Run(Start(), Scheme1Record(open, ts, close, tail), classify) == Stopped(last)
    ensures last.out == Expand([], ts)
  {
    var bits := Scheme1Record(open, ts, close, tail);
    var a, b := ControlUnitBits(open), TokensBits(ts);
    RecordLayout(bits, a, b, ControlUnitBits(close), tail);
    var e1 := Engine(ControlBits, Scheme1, Scheme1, Empty(), []);
    OpenRecord(bits, classify, open, Scheme1);
    var x := Expand([], ts);
    var t := Landing(e1, |b|, x, HistoryOf(x));
    RunTokens(e1, bits, classify, ts, t);
    CloseRecord(t, bits, classify, close);
    last := t.(cursor := t.cursor + ControlBits, mode := End);
  }

  /**
    Decoding a Scheme 1 record appends the reference meaning of its tokens
    to the caller's `prior` bytes and drops the last four bytes, whatever
    follows the closing control unit; with fewer than four bytes in all
    there is no trailer to drop.
   */
  lemma {:induction false} Scheme1RoundTrip(classify: nibble -> Control, open: nibble, ts: seq<Token>, close: nibble, tail: seq<bool>, prior: seq<byte>)
    requires classify(open) == SelectScheme1 || classify(open) == Reset1
    requires classify(close) == EndOfRecord || classify(close) == EndMarker
    requires ValidTokens(ts)
    ensures var all := prior + Expand([], ts);
      && (|all| >= TrailerBytes ==> Decode(Scheme1Record(open, ts, close, tail), classify, prior) == Decoded(all[..|all| - TrailerBytes]))
      && (|all| < TrailerBytes ==> Decode(Scheme1Record(open, ts, close, tail), classify, prior) == Failed(TrailerMissing(|all|)))
  {
    var last := Scheme1RecordRun(classify, open, ts, close, tail);
    DecodeStopped(Scheme1Record(open, ts, close, tail), classify, prior, last);
  }

  /** The loop over a Scheme 2 record ends after the closing control unit with the bytes emitted unchanged. */
  lemma {:induction false} Scheme2RecordRun(classify: nibble -> Control, open: nibble, data: seq<byte>, close: nibble, tail: seq<bool>)
    returns (last: Engine)
    requires classify(open) == SelectScheme2 || classify(open) == Reset2
    requires classify(close) == EndOfRecord || classify(close) == EndMarker
    ensures Run(Start(), Scheme2Record(open, data, close, tail), classify) == Stopped(last)
    ensures last.out == data
  {
    var bits := Scheme2Record(open, data, close, tail);
    var a, b := ControlUnitBits(open), Scheme2Bits(data);
    RecordLayout(bits, a, b, ControlUnitBits(close), tail);
    var e1 := Engine(ControlBits, Scheme2, Scheme2, Empty(), []);
    OpenRecord(bits, classify, open, Scheme2);
    var t := Landing(e1, |b|, [] + data, AddAll(Empty(), data));
    RunScheme2(e1, bits, classify, data, t);
    CloseRecord(t, bits, classify, close);
    last := t.(cursor := t.cursor + ControlBits, mode := End);
  }

  /**
    Decoding a Scheme 2 record appends its bytes to the caller's `prior`
    bytes and drops the last four, whatever follows the closing control
    unit.
   */
  lemma {:induction false} Scheme2RoundTrip(classify: nibble -> Control, open: nibble, data: seq<byte>, close: nibble, tail: seq<bool>, prior: seq<byte>)
    requires classify(open) == SelectScheme2 || classify(open) == Reset2
    requires classify(close) == EndOfRecord || classify(close) == EndMarker
    ensures var all := prior + data;
      && (|all| >= TrailerBytes ==> Decode(Scheme2Record(open, data, close, tail), classify, prior) == Decoded(all[..|all| - TrailerBytes]))
      && (|all| < TrailerBytes ==> Decode(Scheme2Record(open, data, close, tail), classify, prior) == Failed(TrailerMissing(|all|)))
  {
    var last := Scheme2RecordRun(classify, open, data, close, tail);
    DecodeStopped(Scheme2Record(open, data, close, tail), classify, prior, last);
  }

  /** A loop that stops having emitted at least four bytes leaves the caller's bytes in front of its output less the trailer. */
  lemma {:induction false} DecodeKeepsPrior(bits: seq<bool>, classify: nibble -> Control, prior: seq<byte>, last: Engine)
    requires Run(Start(), bits, classify) == Stopped(last) && |last.out| >= TrailerBytes
    ensures Decode(bits, classify, prior) == Decoded(prior + last.out[..|last.out| - TrailerBytes])
  {
    DecodeStopped(bits, classify, prior, last);
    KeepsPrior(prior, last.out);
  }

  /**
    A byte buffer whose loop stops having emitted `x`, at least four bytes,
    leaves the caller's bytes in front of `x` less the trailer.
   */
  lemma {:induction false} ExtractKeepsPrior(data: seq<byte>, classify: nibble -> Control, prior: seq<byte>, last: Engine, x: seq<byte>)
    requires Run(Start(), BitsOf(data), classify) == Stopped(last) && last.out == x
    ensures |x| >= TrailerBytes ==> Extract(data, classify, prior) == Decoded(prior + x[..|x| - TrailerBytes])
  {
    if |x| >= TrailerBytes {
      DecodeKeepsPrior(BitsOf(data), classify, prior, last);
    }
  }

  /** Dropping a trailer of four bytes from `prior + x` keeps `prior` when `x` alone holds the trailer. */
  lemma {:induction false} KeepsPrior(prior: seq<byte>, x: seq<byte>)
    ensures |x| >= TrailerBytes ==> (prior + x)[..|prior + x| - TrailerBytes] == prior + x[..|x| - TrailerBytes]
  {
    if |x| >= TrailerBytes {
      var all, kept := prior + x, prior + x[..|x| - TrailerBytes];
      forall i | 0 <= i < |kept|
        ensures all[..|all| - TrailerBytes][i] == kept[i]
      {
      }
    }
  }

  /**
    A byte buffer whose bit view is a Scheme 1 record is decompressed into
    the caller's vector as the tokens' reference meaning less the trailer;
    when the meaning is at least four bytes long, the bytes the vector held
    before are kept as they were.
   */
  lemma {:induction false} ExtractScheme1(data: seq<byte>, classify: nibble -> Control, open: nibble, ts: seq<Token>, close: nibble, tail: seq<bool>, prior: seq<byte>)
    requires classify(open) == SelectScheme1 || classify(open) == Reset1
    requires classify(close) == EndOfRecord || classify(close) == EndMarker
    requires ValidTokens(ts) && BitsOf(data) == Scheme1Record(open, ts, close, tail)
    ensures var x := Expand([], ts);
      |x| >= TrailerBytes ==> Extract(data, classify, prior) == Decoded(prior + x[..|x| - TrailerBytes])
  {
    var last := Scheme1RecordRun(classify, open, ts, close, tail);
    ExtractKeepsPrior(data, classify, prior, last, Expand([], ts));
  }

  /**
    A byte buffer whose bit view is a Scheme 2 record is decompressed into
    the caller's vector as the record's bytes less the trailer; when there
    are at least four of them, the bytes the vector held before are kept as
    they were.
   */
  lemma {:induction false} ExtractScheme2(data: seq<byte>, classify: nibble -> Control, open: nibble, payload: seq<byte>, close: nibble, tail: seq<bool>, prior: seq<byte>)
    requires classify(open) == SelectScheme2 || classify(open) == Reset2
    requires classify(close) == EndOfRecord || classify(close) == EndMarker
    requires BitsOf(data) == Scheme2Record(open, payload, close, tail)
    ensures |payload| >= TrailerBytes ==> Extract(data, classify, prior) == Decoded(prior + payload[..|payload| - TrailerBytes])
  {
    var last := Scheme2RecordRun(classify, open, payload, close, tail);
    ExtractKeepsPrior(data, classify, prior, last, payload);
  }
}
