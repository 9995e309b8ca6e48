/**
  The SLDC decode engine: a bit cursor walking the bit view of a compressed
  record, a current mode (which scheme is active, or skipping, or ended),
  the mode most recently selected by a scheme symbol, the history ring and
  the bytes emitted so far. At every unit boundary an escape (a 0xFF byte
  followed by a set bit) introduces a four-bit control symbol, whatever the
  mode; any other unit is decoded by the rules of the current mode.
 */
module Sldc {
  import opened Bits
  import opened HistoryBuffer
  import opened Matches

  datatype Mode = Unknown | Scheme1 | Scheme2 | Skip | End

  /**
    The control symbols the decoder distinguishes. Their four-bit codes are
    fixed by the format's header definitions, which this model takes as a
    parameter `classify` instead of fixing them.
   */
  datatype Control =
    | SelectScheme1 | SelectScheme2 | Reset1 | Reset2
    | FileMark | Flush | EndOfRecord | EndMarker | Unrecognised

  /** A control unit: eight escape ones, the set bit, and the four-bit symbol. */
  const ControlBits: nat := 13

  /** The bytes at the end of the emitted stream that are not part of the record's data. */
  const TrailerBytes: nat := 4

  datatype Engine = Engine(cursor: nat, mode: Mode, lastValid: Mode, history: History, out: seq<byte>)

  datatype Failure =
    | WentTooFar(at: nat, mode: Mode)
    | UnknownState(at: nat)
    | ReadsPastEnd(at: nat)
    | TrailerMissing(held: nat)

  /** The outcome of decoding one unit. */
  datatype Next = Continue(e: Engine) | Finish | Abort(why: Failure)

  /** The outcome of the decoding loop. */
  datatype Halt = Stopped(last: Engine) | Aborted(why: Failure)

  /** The outcome of a whole decode: the record's bytes, or why it failed. */
  datatype Outcome = Decoded(output: seq<byte>) | Failed(why: Failure)

  /** The engine at the start of every decode: no mode yet, cursor at 0, an empty history and no output. */
  function Start(): (e: Engine)
    ensures e.cursor == 0 && e.mode == Unknown && e.out == []
    ensures forall d: nat :: Get(e.history, d) == 0
  {
    Engine(0, Unknown, Unknown, Empty(), [])
  }

  /** Whether an escape to a control symbol starts at bit `i`: a 0xFF byte followed by a set bit. */
  predicate IsEscape(bits: seq<bool>, i: nat)
  {
    i + 9 <= |bits| && ByteAt(bits, i) == 0xFF && bits[i + 8]
  }

  /** An escape is exactly nine set bits. */
  lemma {:induction false} EscapeIsNineOnes(bits: seq<bool>, i: nat)
    requires i + 9 <= |bits|
    ensures IsEscape(bits, i) <==> forall t :: i <= t < i + 9 ==> bits[t]
  {
    ByteAtAllOnes(bits, i);
  }

  /** Emits one byte: it is appended to the output and written to the history; nothing else changes. */
  function AddByte(e: Engine, b: byte): (e': Engine)
    ensures e'.out == e.out + [b] && e'.history == Add(e.history, b)
    ensures e'.cursor == e.cursor && e'.mode == e.mode && e'.lastValid == e.lastValid
  {
    e.(history := Add(e.history, b), out := e.out + [b])
  }

  /** Emits a run of bytes: the run is appended to the output and written to the history. */
  function Emit(e: Engine, bs: seq<byte>): Engine
  {
    e.(history := AddAll(e.history, bs), out := e.out + bs)
  }

  /** Emitting a run is emitting its bytes one at a time with `AddByte`, in order. */
  lemma {:induction false} EmitOneAtATime(e: Engine, bs: seq<byte>)
    requires |bs| > 0
    ensures Emit(e, bs) == AddByte(Emit(e, bs[..|bs| - 1]), bs[|bs| - 1])
  {
    var init := bs[..|bs| - 1];
    assert e.out + init + [bs[|bs| - 1]] == e.out + bs;
  }

  /** Whether a control symbol selects a scheme, and so is remembered as the last valid mode. */
  predicate Selects(sym: Control)
  {
    sym.SelectScheme1? || sym.SelectScheme2? || sym.Reset1? || sym.Reset2?
  }

  /** Whether a control symbol clears the history. */
  predicate Resets(sym: Control)
  {
    sym.Reset1? || sym.Reset2?
  }

  /** The effect of a control symbol on the engine, apart from moving the cursor past it. */
  function ApplyControl(e: Engine, sym: Control): (e': Engine)
    ensures e'.cursor == e.cursor && e'.out == e.out
    ensures e'.mode == Scheme1 <==> sym == SelectScheme1 || sym == Reset1
    ensures e'.mode == Scheme2 <==> sym == SelectScheme2 || sym == Reset2
    ensures e'.mode == Skip <==> sym == FileMark || sym == Flush || sym == Unrecognised
    ensures e'.mode == End <==> sym == EndOfRecord || sym == EndMarker
    ensures e'.mode != Unknown
    ensures Selects(sym) ==> e'.lastValid == e'.mode
    ensures !Selects(sym) ==> e'.lastValid == e.lastValid
    ensures Resets(sym) ==> e'.history.next == 0 && forall d: nat :: Get(e'.history, d) == 0
    ensures !Resets(sym) ==> e'.history == e.history
  {
    var mode := ModeAfter(sym);
    e.(history := if Resets(sym) then Empty() else e.history,
       mode := mode,
       lastValid := if Selects(sym) then mode else e.lastValid)
  }

  /** The mode a control symbol switches to; a symbol the source does not recognise switches to Skip. */
  function ModeAfter(sym: Control): Mode
  {
    match sym
    case SelectScheme1 | Reset1 => Scheme1
    case SelectScheme2 | Reset2 => Scheme2
    case FileMark | Flush | Unrecognised => Skip
    case EndOfRecord | EndMarker => End
  }

  /** The control symbol whose code follows the escape at bit `i`. */
  function SymbolAt(bits: seq<bool>, i: nat, classify: nibble -> Control): Control
    requires i + ControlBits <= |bits|
  {
    classify(NibbleAt(bits, i + 9))
  }

  /** How many bits the diagnostic dump after an unrecognised symbol shows on either side of its centre. */
  const DumpRadius: nat := 48

  /**
    Whether the diagnostic dump for an unrecognised control symbol at bit
    `i` reads past the end of an `n`-bit buffer. The dump centres its
    window on bit `i`, moved up to bit 48 when `i` is lower, and reads
    every bit of the window: 48 before the centre and 48 from it on.
   */
  function DumpOverruns(i: nat, n: nat): (b: bool)
    ensures b <==> n < 2 * DumpRadius || n < i + DumpRadius
  {
    var centre := if i < DumpRadius then DumpRadius else i;
    centre + DumpRadius > n
  }

  /**
    Handles the control unit at the cursor: the symbol is the nibble after
    the escape, and the cursor moves past all thirteen bits. A control unit
    cut short by the end of the buffer is a failure, and so is an
    unrecognised symbol whose diagnostic dump reads past the end.
   */
  function SetControl(e: Engine, bits: seq<bool>, classify: nibble -> Control): (s: Next)
    ensures s.Abort? <==>
      || e.cursor + ControlBits > |bits|
      || (SymbolAt(bits, e.cursor, classify) == Unrecognised && DumpOverruns(e.cursor, |bits|))
    ensures s.Abort? ==> s.why == ReadsPastEnd(e.cursor)
    ensures s.Continue? ==> s.e.cursor == e.cursor + ControlBits <= |bits|
    ensures s.Continue? ==> s.e.out == e.out && s.e.mode != Unknown
    ensures !s.Finish?
  {
    if e.cursor + ControlBits > |bits| then Abort(ReadsPastEnd(e.cursor))
    else
      var sym := SymbolAt(bits, e.cursor, classify);
      if sym == Unrecognised && DumpOverruns(e.cursor, |bits|) then Abort(ReadsPastEnd(e.cursor))
      else Continue(ApplyControl(e, sym).(cursor := e.cursor + ControlBits))
  }

  /** The widths a unit can have: a Scheme 1 literal, a match of each size class, a Scheme 2 byte, a skipped bit, a control unit. */
  predicate UnitWidth(w: nat)
  {
    w == 1 || w == 8 || w == 9 || w == ControlBits || w == 15 || w == 17 || w == 19 || w == 23
  }

  /**
    Decodes the Scheme 1 unit at the cursor: a clear flag bit introduces a
    literal byte in the next eight bits; a set flag bit introduces a match,
    whose copy is emitted byte by byte from the history.
   */
  function Scheme1Unit(e: Engine, bits: seq<bool>): (s: Next)
    requires e.cursor + 9 <= |bits|
    ensures !s.Finish?
    ensures s.Abort? ==> s.why == ReadsPastEnd(e.cursor) && bits[e.cursor]
    ensures s.Continue? ==> e.cursor < s.e.cursor <= |bits|
    ensures s.Continue? ==> var w := s.e.cursor - e.cursor; w == 9 || w == 13 || w == 15 || w == 17 || w == 19 || w == 23
    ensures s.Continue? && bits[e.cursor] ==> s.e.cursor - e.cursor >= 13
    ensures !bits[e.cursor] ==> s.Continue? && s.e.cursor == e.cursor + 9 && |s.e.out| == |e.out| + 1
    ensures s.Continue? ==> s.e.mode == e.mode && s.e.lastValid == e.lastValid
    ensures s.Continue? ==> e.out <= s.e.out
  {
    var c := e.cursor;
    if !bits[c] then Continue(AddByte(e, ByteAt(bits, c + 1)).(cursor := c + 9))
    else
      match ParseMatch(bits, c)
      case Overruns => Abort(ReadsPastEnd(c))
      case Fits(m) => Continue(Emit(e, Copy(e.history, m.displacement, m.count)).(cursor := c + m.width))
  }

  /** Decodes the Scheme 2 unit at the cursor: one byte, with one extra bit after a 0xFF byte. */
  function Scheme2Unit(e: Engine, bits: seq<bool>): (s: Next)
    requires e.cursor + 9 <= |bits|
    ensures s.Continue?
    ensures s.e.out == e.out + [ByteAt(bits, e.cursor)]
    ensures s.e.cursor == e.cursor + (if ByteAt(bits, e.cursor) == 0xFF then 9 else 8)
    ensures s.e.mode == e.mode && s.e.lastValid == e.lastValid
  {
    var b := ByteAt(bits, e.cursor);
    Continue(AddByte(e, b).(cursor := e.cursor + (if b == 0xFF then 9 else 8)))
  }

  /** Whether the loop has nothing more to do at this engine: the condition under which `Step` finishes. */
  predicate Done(e: Engine, n: nat)
  {
    e.cursor >= n || e.mode == End || (e.cursor + 8 >= n && e.mode == Skip)
  }

  /**
    One iteration of the decoding loop. Past the end of the buffer the loop
    ends. Within the last eight bits, or once a record has ended, the loop
    ends as well, which is a failure unless the mode is End or Skip. Otherwise an
    escape is handled as a control symbol whatever the mode, and any other
    unit by the rules of the mode; a unit in no scheme is a failure.
   */
  function Step(e: Engine, bits: seq<bool>, classify: nibble -> Control): (s: Next)
    ensures s.Continue? ==> e.cursor < s.e.cursor <= |bits| && UnitWidth(s.e.cursor - e.cursor)
    ensures s.Continue? ==> s.e.mode != Unknown && e.out <= s.e.out
    ensures s.Finish? <==> Done(e, |bits|)
    ensures s.Abort? ==> !s.why.TrailerMissing? && s.why.at == e.cursor
    ensures s.Abort? && s.why.WentTooFar? <==> e.cursor < |bits| <= e.cursor + 8 && e.mode != End && e.mode != Skip
    ensures s.Abort? && s.why.WentTooFar? ==> s.why.mode == e.mode
    ensures s.Abort? && s.why.UnknownState? <==> e.cursor + 8 < |bits| && e.mode == Unknown && !IsEscape(bits, e.cursor)
  {
    var c := e.cursor;
    if c >= |bits| then Finish
    else if c + 8 >= |bits| || e.mode == End then
      if e.mode != End && e.mode != Skip then Abort(WentTooFar(c, e.mode)) else Finish
    else if IsEscape(bits, c) then SetControl(e, bits, classify)
    else
      match e.mode
      case Scheme1 => Scheme1Unit(e, bits)
      case Scheme2 => Scheme2Unit(e, bits)
      case Skip => Continue(e.(cursor := c + 1))
      case _ => Abort(UnknownState(c))
  }

  /**
    The decoding loop: steps until a step finishes or fails. It terminates
    because every step that continues moves the cursor forward and never
    past the end of the buffer.
   */
  function Run(e: Engine, bits: seq<bool>, classify: nibble -> Control): (h: Halt)
    ensures h.Stopped? ==> Done(h.last, |bits|) && e.out <= h.last.out && e.cursor <= h.last.cursor
    ensures h.Aborted? ==> !h.why.TrailerMissing? && e.cursor <= h.why.at
    ensures h.Aborted? && h.why.WentTooFar? ==>
      h.why.at < |bits| <= h.why.at + 8 && h.why.mode != End && h.why.mode != Skip
    ensures h.Aborted? && h.why.WentTooFar? && h.why.mode == Unknown ==> h.why.at == e.cursor && e.mode == Unknown
    ensures h.Aborted? && h.why.UnknownState? ==> h.why.at == e.cursor && e.mode == Unknown
    decreases |bits| - e.cursor
  {
    match Step(e, bits, classify)
    case Finish => Stopped(e)
    case Abort(why) => Aborted(why)
    case Continue(next) => Run(next, bits, classify)
  }

  /**
    The caller's result vector once the trailer is dropped: `held` is what
    the vector holds when the loop stops, the bytes it held on entry followed
    by everything emitted. With fewer than four bytes there is no trailer to
    drop.
   */
  function DropTrailer(held: seq<byte>): (r: Outcome)
    ensures r.Decoded? <==> |held| >= TrailerBytes
    ensures r.Decoded? ==> |held| == |r.output| + TrailerBytes && r.output == held[..|r.output|]
    ensures r.Failed? ==> r.why == TrailerMissing(|held|)
  {
    if |held| < TrailerBytes then Failed(TrailerMissing(|held|))
    else Decoded(held[..|held| - TrailerBytes])
  }

  /**
    Decodes a whole record: run the loop from the start engine, append what
    it emitted to the `prior` bytes the caller's vector already holds, then
    drop the four trailing bytes of the vector.
   */
  function Decode(bits: seq<bool>, classify: nibble -> Control, prior: seq<byte>): (r: Outcome)
    ensures |bits| == 0 ==> r == DropTrailer(prior)
    ensures 0 < |bits| <= 8 ==> r == Failed(WentTooFar(0, Unknown))
    ensures r.Failed? && r.why.UnknownState? <==> |bits| > 8 && !IsEscape(bits, 0)
    ensures r.Failed? && r.why.UnknownState? ==> r.why.at == 0
    ensures r.Failed? && r.why.TrailerMissing? ==> r.why.held < TrailerBytes
    ensures r.Decoded? <==> Run(Start(), bits, classify).Stopped? && |prior| + |Run(Start(), bits, classify).last.out| >= TrailerBytes
    ensures r.Decoded? ==>
      var all := prior + Run(Start(), bits, classify).last.out;
      |all| == |r.output| + TrailerBytes && r.output == all[..|r.output|]
  {
    match Run(Start(), bits, classify)
    case Aborted(why) => Failed(why)
    case Stopped(last) => DropTrailer(prior + last.out)
  }

  /**
    Decompresses a compressed record held as bytes, appending to the `prior`
    bytes of the caller's vector. An empty buffer drops the trailer from
    those bytes alone; a single byte leaves no room for a unit; a longer
    buffer that does not open with an escape (a 0xFF byte whose successor
    has its top bit set) has a unit before any scheme was selected.
   */
  function Extract(data: seq<byte>, classify: nibble -> Control, prior: seq<byte>): (r: Outcome)
    ensures data == [] && |prior| < TrailerBytes ==> r == Failed(TrailerMissing(|prior|))
    ensures data == [] && |prior| >= TrailerBytes ==> r == Decoded(prior[..|prior| - TrailerBytes])
    ensures |data| == 1 ==> r == Failed(WentTooFar(0, Unknown))
    ensures r.Failed? && r.why.UnknownState? <==> |data| >= 2 && !(data[0] == 0xFF && data[1] >= 0x80)
  {
    EscapeAtStart(data);
    Decode(BitsOf(data), classify, prior)
  }

  /** The escape test at the first bit of a byte buffer, in terms of its first two bytes. */
  lemma {:induction false} EscapeAtStart(data: seq<byte>)
    ensures |data| >= 2 ==> (IsEscape(BitsOf(data), 0) <==> data[0] == 0xFF && data[1] >= 0x80)
  {
    if |data| >= 2 {
      var bits := BitsOf(data);
      BitsOfAligned(data, 0);
      BitsOfAligned(data, 1);
      ByteBitsTop(data[1]);
      assert bits[8] == bits[8..16][0];
    }
  }

  /**
    A buffer shorter than twelve bytes that opens with an escape to an
    unrecognised symbol fails: the diagnostic dump reads 96 bits.
   */
  lemma {:induction false} UnrecognisedInShortBuffer(data: seq<byte>, classify: nibble -> Control, prior: seq<byte>)
    requires 2 <= |data| < 12 && data[0] == 0xFF && data[1] >= 0x80
    requires classify(NibbleAt(BitsOf(data), 9)) == Unrecognised
    ensures Extract(data, classify, prior) == Failed(ReadsPastEnd(0))
  {
    EscapeAtStart(data);
    assert Step(Start(), BitsOf(data), classify) == Abort(ReadsPastEnd(0));
  }

  /**
    Escape priority: an escape at the cursor is decoded as a control unit
    whatever the mode (short of End), moving the cursor by exactly thirteen
    bits and leaving the output alone, unless the symbol is unrecognised
    and its diagnostic dump reads past the end of the buffer.
   */
  lemma {:induction false} ControlUnit(e: Engine, bits: seq<bool>, classify: nibble -> Control)
    requires e.cursor + ControlBits <= |bits| && e.mode != End && IsEscape(bits, e.cursor)
    ensures var sym := SymbolAt(bits, e.cursor, classify);
      !(sym == Unrecognised && DumpOverruns(e.cursor, |bits|)) ==>
        Step(e, bits, classify) == Continue(ApplyControl(e, sym).(cursor := e.cursor + ControlBits))
    ensures var sym := SymbolAt(bits, e.cursor, classify);
      sym == Unrecognised && DumpOverruns(e.cursor, |bits|) ==> Step(e, bits, classify) == Abort(ReadsPastEnd(e.cursor))
  {
  }

  /**
    A Scheme 1 literal: a clear flag bit emits the byte in the next eight
    bits to the output and the history, moves the cursor by nine and keeps
    the mode.
   */
  lemma {:induction false} LiteralUnit(e: Engine, bits: seq<bool>, classify: nibble -> Control)
    requires e.cursor + 8 < |bits| && e.mode == Scheme1 && !bits[e.cursor]
    ensures Step(e, bits, classify) == Continue(AddByte(e, ByteAt(bits, e.cursor + 1)).(cursor := e.cursor + 9))
  {
    ByteAtAllOnes(bits, e.cursor);
    Scheme1Dispatch(e, bits, classify);
  }

  /**
    A Scheme 1 match: a set flag bit that does not start an escape is read
    as a match, whose count then lies between 2 and `MaxCount` (so the
    out-of-range report never fires), and which emits the copy of `count`
    bytes from the history at its displacement.
   */
  lemma {:induction false} MatchUnit(e: Engine, bits: seq<bool>, classify: nibble -> Control)
    requires e.cursor + 8 < |bits| && e.mode == Scheme1 && bits[e.cursor] && !IsEscape(bits, e.cursor)
    requires ParseMatch(bits, e.cursor).Fits?
    ensures var m := ParseMatch(bits, e.cursor).m;
      && 2 <= m.count <= MaxCount
      && Step(e, bits, classify) == Continue(Emit(e, Copy(e.history, m.displacement, m.count)).(cursor := e.cursor + m.width))
  {
    MatchCountInRange(bits, e.cursor);
    Scheme1Dispatch(e, bits, classify);
  }

  /** In Scheme 1, a unit that does not start an escape is decoded by the Scheme 1 rules. */
  lemma {:induction false} Scheme1Dispatch(e: Engine, bits: seq<bool>, classify: nibble -> Control)
    requires e.cursor + 8 < |bits| && e.mode == Scheme1 && !IsEscape(bits, e.cursor)
    ensures Step(e, bits, classify) == Scheme1Unit(e, bits)
  {
  }

  /** A match the decoder reaches, which is not an escape, has a count the format can express. */
  lemma {:induction false} MatchCountInRange(bits: seq<bool>, c: nat)
    requires c + 9 <= |bits| && bits[c] && !IsEscape(bits, c) && ParseMatch(bits, c).Fits?
    ensures 2 <= ParseMatch(bits, c).m.count <= MaxCount
  {
    EscapeIsNineOnes(bits, c);
    CountAboveMaxIsEscape(bits, c);
  }

  /** A Scheme 2 byte that does not start an escape is emitted unchanged. */
  lemma {:induction false} Scheme2ByteUnit(e: Engine, bits: seq<bool>, classify: nibble -> Control)
    requires e.cursor + 8 < |bits| && e.mode == Scheme2 && !IsEscape(bits, e.cursor)
    ensures var b := ByteAt(bits, e.cursor);
      Step(e, bits, classify) == Continue(AddByte(e, b).(cursor := e.cursor + (if b == 0xFF then 9 else 8)))
  {
  }

  /** In Skip mode a unit that does not start an escape is one bit long and emits nothing. */
  lemma {:induction false} SkipUnit(e: Engine, bits: seq<bool>, classify: nibble -> Control)
    requires e.cursor + 8 < |bits| && e.mode == Skip && !IsEscape(bits, e.cursor)
    ensures Step(e, bits, classify) == Continue(e.(cursor := e.cursor + 1))
  {
  }
}
