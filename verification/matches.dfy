/**
  Scheme 1 matches of SLDC: a set flag bit, a unary size class of up to four
  ones (ended by a zero unless all four are present), a count field whose
  width the size class picks, and a 10-bit displacement naming the history
  slot where the copy starts. The copy then emits `count` bytes one at a
  time, each read from the history as it stands after the bytes before it
  were written, so a copy may read bytes it has itself just produced.
 */
module Matches {
  import opened Bits
  import opened HistoryBuffer

  /** The largest size class: four ones and no terminating zero. */
  const MaxClass: nat := 4

  /** Width of the count field for each size class: 1, 2, 3, 4 and 8 bits. */
  function MatchDigits(p: nat): nat
    requires p <= MaxClass
  {
    if p < MaxClass then p + 1 else 8
  }

  /** Whether a terminating zero follows the ones of each size class: 1 for classes 0 to 3, 0 for class 4. */
  function MatchSkip(p: nat): nat
    requires p <= MaxClass
  {
    if p < MaxClass then 1 else 0
  }

  const DisplacementBits: nat := 10

  /** The largest count the format allows; the source reports any count outside 2 .. MaxCount. */
  const MaxCount: nat := 271

  datatype Match = Match(sizeClass: nat, base: nat, count: nat, displacement: nat, width: nat)

  datatype Parsed = Fits(m: Match) | Overruns

  /** The number of consecutive set bits starting at `from`, looking at no more than `cap` bits. */
  function LeadingOnes(bits: seq<bool>, from: nat, cap: nat): (n: nat)
    requires from + cap <= |bits|
    ensures n <= cap
    ensures forall t :: from <= t < from + n ==> bits[t]
    ensures n < cap ==> !bits[from + n]
    decreases cap
  {
    if cap == 0 || !bits[from] then 0 else 1 + LeadingOnes(bits, from + 1, cap - 1)
  }

  /** The number of bits a match of the given size class occupies, flag bit included. */
  function ClassWidth(p: nat): nat
    requires p <= MaxClass
  {
    1 + p + MatchSkip(p) + MatchDigits(p) + DisplacementBits
  }

  /** The width of a match unit of each size class. */
  lemma {:induction false} ClassWidthValue(p: nat)
    requires p <= MaxClass
    ensures ClassWidth(p) == if p < MaxClass then 2 * p + 13 else 23
  {
  }

  /** Whether the source's out-of-range report for a match count fires. */
  predicate CountOutOfRange(count: nat)
  {
    count < 2 || count > MaxCount
  }

  /**
    Reads the match whose set flag bit is at `c`. The caller guarantees the
    nine bits the escape check looked at; a match longer than what is left
    of the buffer is `Overruns`.
   */
  function ParseMatch(bits: seq<bool>, c: nat): (r: Parsed)
    requires c + 9 <= |bits| && bits[c]
    ensures r.Fits? ==> r.m.sizeClass <= MaxClass && c + r.m.width <= |bits|
    ensures r.Fits? ==> r.m.width == (if r.m.sizeClass < MaxClass then 2 * r.m.sizeClass + 13 else 23)
  {
    var p := LeadingOnes(bits, c + 1, MaxClass);
    var fieldAt := c + 1 + p + MatchSkip(p);
    var at := fieldAt + MatchDigits(p);
    if at + DisplacementBits > |bits| then Overruns
    else
      var base := Field(bits, fieldAt, MatchDigits(p));
      Pow2Table();
      Fits(Match(p, base, Pow2(p + 1) + base, Displacement(bits, at), at + DisplacementBits - c))
  }

  /**
    The layout of a match as read: the size class is the run of ones after
    the flag bit, ended by a zero below the largest class, and the match
    overruns exactly when the unit of that class does not fit in the buffer.
   */
  lemma {:induction false} ParseMatchLayout(bits: seq<bool>, c: nat)
    requires c + 9 <= |bits| && bits[c]
    ensures var r := ParseMatch(bits, c);
      && (r.Overruns? <==> c + ClassWidth(LeadingOnes(bits, c + 1, MaxClass)) > |bits|)
      && (r.Fits? ==> r.m.sizeClass == LeadingOnes(bits, c + 1, MaxClass))
      && (r.Fits? ==> forall t :: c < t <= c + r.m.sizeClass ==> bits[t])
      && (r.Fits? && r.m.sizeClass < MaxClass ==> !bits[c + 1 + r.m.sizeClass])
  {
    var p := LeadingOnes(bits, c + 1, MaxClass);
    ClassWidthValue(p);
  }

  /**
    The fields of a match as read: the count is `2^(class+1)` plus the count
    field, so it lies in the range of its class, the displacement is the
    10-bit field that ends the unit, and the source's out-of-range report
    fires exactly for a count field of 240 or more in the largest class.
   */
  lemma {:induction false} ParseMatchFields(bits: seq<bool>, c: nat)
    requires c + 9 <= |bits| && bits[c] && ParseMatch(bits, c).Fits?
    ensures var m := ParseMatch(bits, c).m;
      && Pow2(m.sizeClass + 1) <= m.count && 2 <= m.count <= 287
      && (m.sizeClass < MaxClass ==> m.count < Pow2(m.sizeClass + 2))
      && m.count == Pow2(m.sizeClass + 1) + m.base
      && m.width == ClassWidth(m.sizeClass)
      && m.base == Field(bits, c + 1 + m.sizeClass + MatchSkip(m.sizeClass), MatchDigits(m.sizeClass))
      && m.displacement < Size
      && m.displacement == Field(bits, c + 1 + m.sizeClass + MatchSkip(m.sizeClass) + MatchDigits(m.sizeClass), DisplacementBits)
      && (CountOutOfRange(m.count) <==> m.sizeClass == MaxClass && m.base >= 240)
  {
    var m := ParseMatch(bits, c).m;
    Pow2Table();
    assert m.base < Pow2(MatchDigits(m.sizeClass));
  }

  /**
    The displacement as the decoder assembles it: the byte at `at` shifted
    left by two, then the next two bits as the values 2 and 1.
   */
  function Displacement(bits: seq<bool>, at: nat): (d: nat)
    requires at + DisplacementBits <= |bits|
    ensures d == Field(bits, at, DisplacementBits)
    ensures d < Size
  {
    DisplacementField(bits, at);
    Pow2Table();
    ByteAt(bits, at) * 4 + (if bits[at + 8] then 2 else 0) + (if bits[at + 9] then 1 else 0)
  }

  /** The displacement assembled from a byte and two further bits is the 10-bit field there. */
  lemma {:induction false} DisplacementField(bits: seq<bool>, at: nat)
    requires at + 10 <= |bits|
    ensures Field(bits, at, 10) == ByteAt(bits, at) * 4 + (if bits[at + 8] then 2 else 0) + (if bits[at + 9] then 1 else 0)
  {
    assert Field(bits, at, 10) == 2 * Field(bits, at, 9) + (if bits[at + 9] then 1 else 0);
    assert Field(bits, at, 9) == 2 * Field(bits, at, 8) + (if bits[at + 8] then 1 else 0);
  }

  /** The size class of a count: the number of ones that follow the flag bit. */
  function ClassOf(count: nat): (p: nat)
    requires 2 <= count <= 287
    ensures p <= MaxClass
    ensures Pow2(p + 1) <= count
    ensures p < MaxClass ==> count < Pow2(p + 2)
    ensures count - Pow2(p + 1) < Pow2(MatchDigits(p))
  {
    Pow2Table();
    if count < 4 then 0 else if count < 8 then 1 else if count < 16 then 2 else if count < 32 then 3 else 4
  }

  /** The flag bit and size-class code of a match: a one, `p` ones, and the terminating zero below the largest class. */
  function ClassPrefix(p: nat): (bs: seq<bool>)
    requires p <= MaxClass
    ensures |bs| == 1 + p + MatchSkip(p)
  {
    [true] + seq(p, _ => true) + seq(MatchSkip(p), _ => false)
  }

  /**
    The bits of a match unit, flag bit included, that copies `count` bytes
    starting at history position `displacement`.
   */
  function MatchBits(count: nat, displacement: nat): (bs: seq<bool>)
    requires 2 <= count <= 287 && displacement < Size
    ensures |bs| == ClassWidth(ClassOf(count))
  {
    var p := ClassOf(count);
    ClassPrefix(p) + UIntBits(count - Pow2(p + 1), MatchDigits(p)) + UIntBits(displacement, DisplacementBits)
  }

  /** The ones of a match unit's size class are counted as that class. */
  lemma {:induction false} LeadingOnesOfClass(bits: seq<bool>, c: nat, p: nat)
    requires p <= MaxClass && c + 1 + MaxClass <= |bits|
    requires forall t :: c < t <= c + p ==> bits[t]
    requires p < MaxClass ==> !bits[c + 1 + p]
    ensures LeadingOnes(bits, c + 1, MaxClass) == p
  {
  }

  /** The three parts of a match unit: class prefix, count field, displacement field. */
  lemma {:induction false} MatchBitsParts(count: nat, displacement: nat)
    requires 2 <= count <= 287 && displacement < Size
    ensures var p := ClassOf(count);
      var fieldAt := 1 + p + MatchSkip(p);
      var enc := MatchBits(count, displacement);
      && enc[..fieldAt] == ClassPrefix(p)
      && enc[fieldAt..fieldAt + MatchDigits(p)] == UIntBits(count - Pow2(p + 1), MatchDigits(p))
      && enc[fieldAt + MatchDigits(p)..] == UIntBits(displacement, DisplacementBits)
  {
  }

  /** A class prefix in the bits is read as its size class. */
  lemma {:induction false} ParseClassPrefix(bits: seq<bool>, c: nat, p: nat)
    requires p <= MaxClass
    requires c + |ClassPrefix(p)| <= |bits| && c + 9 <= |bits|
    requires bits[c..c + |ClassPrefix(p)|] == ClassPrefix(p)
    ensures bits[c]
    ensures LeadingOnes(bits, c + 1, MaxClass) == p
  {
    var head := ClassPrefix(p);
    assert bits[c] == head[0];
    forall t | c < t <= c + p
      ensures bits[t]
    {
      assert bits[t] == head[t - c];
    }
    if p < MaxClass {
      assert bits[c + 1 + p] == head[1 + p];
    }
    LeadingOnesOfClass(bits, c, p);
  }

  /** The bits of a match unit are read as a match of the unit's size class and width. */
  lemma {:induction false} ParseMatchShape(bits: seq<bool>, c: nat, count: nat, displacement: nat)
    requires 2 <= count <= 287 && displacement < Size
    requires c + |MatchBits(count, displacement)| <= |bits|
    requires bits[c..c + |MatchBits(count, displacement)|] == MatchBits(count, displacement)
    ensures c + 9 <= |bits| && bits[c]
    ensures ParseMatch(bits, c).Fits?
    ensures ParseMatch(bits, c).m.sizeClass == ClassOf(count)
    ensures ParseMatch(bits, c).m.width == |MatchBits(count, displacement)|
  {
    var enc := MatchBits(count, displacement);
    var p := ClassOf(count);
    MatchBitsParts(count, displacement);
    SliceWithin(bits, c, enc, 0, |ClassPrefix(p)|);
    ParseClassPrefix(bits, c, p);
  }

  /** The count field of a match unit reads its count less the smallest count of its size class. */
  lemma {:induction false} CountFieldOfMatchBits(bits: seq<bool>, c: nat, count: nat, displacement: nat)
    requires 2 <= count <= 287 && displacement < Size
    requires c + |MatchBits(count, displacement)| <= |bits|
    requires bits[c..c + |MatchBits(count, displacement)|] == MatchBits(count, displacement)
    ensures var p := ClassOf(count);
      Field(bits, c + 1 + p + MatchSkip(p), MatchDigits(p)) == count - Pow2(p + 1)
  {
    var enc := MatchBits(count, displacement);
    var p := ClassOf(count);
    var fieldAt := 1 + p + MatchSkip(p);
    MatchBitsParts(count, displacement);
    SliceWithin(bits, c, enc, fieldAt, fieldAt + MatchDigits(p));
    FieldOfBits(bits, c + fieldAt, count - Pow2(p + 1), MatchDigits(p));
  }

  /** The displacement field of a match unit reads its displacement. */
  lemma {:induction false} DisplacementFieldOfMatchBits(bits: seq<bool>, c: nat, count: nat, displacement: nat)
    requires 2 <= count <= 287 && displacement < Size
    requires c + |MatchBits(count, displacement)| <= |bits|
    requires bits[c..c + |MatchBits(count, displacement)|] == MatchBits(count, displacement)
    ensures var p := ClassOf(count);
      Field(bits, c + 1 + p + MatchSkip(p) + MatchDigits(p), DisplacementBits) == displacement
  {
    var enc := MatchBits(count, displacement);
    var p := ClassOf(count);
    var at := 1 + p + MatchSkip(p) + MatchDigits(p);
    MatchBitsParts(count, displacement);
    SliceWithin(bits, c, enc, at, |enc|);
    assert Pow2(DisplacementBits) == Size by {
      Pow2Table();
    }
    FieldOfBits(bits, c + at, displacement, DisplacementBits);
  }

  /** The count field of a match unit is read back. */
  lemma {:induction false} ParseMatchBase(bits: seq<bool>, c: nat, count: nat, displacement: nat)
    requires 2 <= count <= 287 && displacement < Size
    requires c + |MatchBits(count, displacement)| <= |bits|
    requires bits[c..c + |MatchBits(count, displacement)|] == MatchBits(count, displacement)
    ensures ParseMatch(bits, c).Fits?
    ensures ParseMatch(bits, c).m.base == count - Pow2(ClassOf(count) + 1)
  {
    ParseMatchShape(bits, c, count, displacement);
    ParseMatchFields(bits, c);
    CountFieldOfMatchBits(bits, c, count, displacement);
  }

  /** The displacement field of a match unit is read back. */
  lemma {:induction false} ParseMatchDisplacement(bits: seq<bool>, c: nat, count: nat, displacement: nat)
    requires 2 <= count <= 287 && displacement < Size
    requires c + |MatchBits(count, displacement)| <= |bits|
    requires bits[c..c + |MatchBits(count, displacement)|] == MatchBits(count, displacement)
    ensures ParseMatch(bits, c).Fits?
    ensures ParseMatch(bits, c).m.displacement == displacement
  {
    ParseMatchShape(bits, c, count, displacement);
    ParseMatchFields(bits, c);
    DisplacementFieldOfMatchBits(bits, c, count, displacement);
  }

  /** Reading the bits of a match unit gives back its count and displacement. */
  lemma {:induction false} ParseMatchBits(bits: seq<bool>, c: nat, count: nat, displacement: nat)
    requires 2 <= count <= 287 && displacement < Size
    requires c + |MatchBits(count, displacement)| <= |bits|
    requires bits[c..c + |MatchBits(count, displacement)|] == MatchBits(count, displacement)
    ensures c + 9 <= |bits| && bits[c]
    ensures ParseMatch(bits, c).Fits?
    ensures ParseMatch(bits, c).m.count == count
    ensures ParseMatch(bits, c).m.displacement == displacement
    ensures ParseMatch(bits, c).m.width == |MatchBits(count, displacement)|
  {
    ParseMatchShape(bits, c, count, displacement);
    ParseMatchBase(bits, c, count, displacement);
    ParseMatchDisplacement(bits, c, count, displacement);
  }

  /** The size class of a parsed match is the class its count belongs to. */
  lemma {:induction false} ClassOfParse(bits: seq<bool>, c: nat)
    requires c + 9 <= |bits| && bits[c] && ParseMatch(bits, c).Fits?
    ensures ClassOf(ParseMatch(bits, c).m.count) == ParseMatch(bits, c).m.sizeClass
  {
    Pow2Table();
  }

  /** The bits a parsed match starts with are the class prefix of its size class. */
  lemma {:induction false} PrefixOfParse(bits: seq<bool>, c: nat)
    requires c + 9 <= |bits| && bits[c] && ParseMatch(bits, c).Fits?
    ensures var p := ParseMatch(bits, c).m.sizeClass;
      bits[c..c + 1 + p + MatchSkip(p)] == ClassPrefix(p)
  {
    var p := ParseMatch(bits, c).m.sizeClass;
    var head := ClassPrefix(p);
    var got := bits[c..c + 1 + p + MatchSkip(p)];
    forall t | 0 <= t < |head|
      ensures got[t] == head[t]
    {
      assert got[t] == bits[c + t];
    }
  }

  /** The bits of a match unit, spelled out for a given size class. */
  lemma {:induction false} MatchBitsOfClass(count: nat, displacement: nat, p: nat)
    requires 2 <= count <= 287 && displacement < Size && ClassOf(count) == p
    ensures MatchBits(count, displacement)
      == ClassPrefix(p) + UIntBits(count - Pow2(p + 1), MatchDigits(p)) + UIntBits(displacement, DisplacementBits)
  {
  }

  /** A field read and written back at its width gives the bits it was read from. */
  lemma {:induction false} FieldRoundTrip(bits: seq<bool>, i: nat, w: nat)
    requires i + w <= |bits|
    ensures bits[i..i + w] == UIntBits(Field(bits, i, w), w)
  {
    FieldIsUIntOf(bits, i, w);
    UIntOfRoundTrip(bits[i..i + w]);
  }

  /** The bits of a field are the bits of the value it reads. */
  lemma {:induction false} FieldBits(bits: seq<bool>, i: nat, w: nat, v: nat)
    requires i + w <= |bits| && Field(bits, i, w) == v
    ensures bits[i..i + w] == UIntBits(v, w)
  {
    FieldRoundTrip(bits, i, w);
  }

  /** A slice made of three adjacent slices that match three strings matches their concatenation. */
  lemma {:induction false} SliceThree(bits: seq<bool>, i: nat, j: nat, k: nat, l: nat, x: seq<bool>, y: seq<bool>, z: seq<bool>)
    requires i <= j <= k <= l <= |bits|
    requires bits[i..j] == x && bits[j..k] == y && bits[k..l] == z
    ensures bits[i..l] == x + y + z
  {
    assert bits[i..l] == bits[i..j] + bits[j..k] + bits[k..l];
  }

  /** A class prefix, a count field and a displacement field laid side by side are the bits of a match unit. */
  lemma {:induction false} MatchBitsFromParts(bits: seq<bool>, c: nat, count: nat, displacement: nat, p: nat, fieldAt: nat, at: nat, end: nat)
    requires 2 <= count <= 287 && displacement < Size && ClassOf(count) == p
    requires fieldAt == c + 1 + p + MatchSkip(p) && at == fieldAt + MatchDigits(p) && end == at + DisplacementBits && end <= |bits|
    requires bits[c..fieldAt] == ClassPrefix(p)
    requires bits[fieldAt..at] == UIntBits(count - Pow2(p + 1), MatchDigits(p))
    requires bits[at..end] == UIntBits(displacement, DisplacementBits)
    ensures bits[c..end] == MatchBits(count, displacement)
  {
    MatchBitsOfClass(count, displacement, p);
    SliceThree(bits, c, fieldAt, at, end, ClassPrefix(p), UIntBits(count - Pow2(p + 1), MatchDigits(p)), UIntBits(displacement, DisplacementBits));
  }

  /** The bits a parsed match occupied are exactly the bits of a match unit with its count and displacement. */
  lemma {:induction false} MatchBitsOfParse(bits: seq<bool>, c: nat)
    requires c + 9 <= |bits| && bits[c] && ParseMatch(bits, c).Fits?
    ensures var m := ParseMatch(bits, c).m;
      && 2 <= m.count <= 287 && m.displacement < Size
      && bits[c..c + m.width] == MatchBits(m.count, m.displacement)
  {
    var m := ParseMatch(bits, c).m;
    ParseMatchFields(bits, c);
    ClassOfParse(bits, c);
    PrefixOfParse(bits, c);
    MatchBitsOfFields(bits, c, m.sizeClass, m.base, m.count, m.displacement);
  }

  /** A class prefix followed by fields that read a count and a displacement is the match unit with that count and displacement. */
  lemma {:induction false} MatchBitsOfFields(bits: seq<bool>, c: nat, p: nat, base: nat, count: nat, displacement: nat)
    requires p <= MaxClass && 2 <= count <= 287 && displacement < Size && ClassOf(count) == p
    requires c + ClassWidth(p) <= |bits|
    requires bits[c..c + 1 + p + MatchSkip(p)] == ClassPrefix(p)
    requires count == Pow2(p + 1) + base
    requires base == Field(bits, c + 1 + p + MatchSkip(p), MatchDigits(p))
    requires displacement == Field(bits, c + 1 + p + MatchSkip(p) + MatchDigits(p), DisplacementBits)
    ensures bits[c..c + ClassWidth(p)] == MatchBits(count, displacement)
  {
    var fieldAt := c + 1 + p + MatchSkip(p);
    var at := fieldAt + MatchDigits(p);
    FieldBits(bits, fieldAt, MatchDigits(p), count - Pow2(p + 1));
    FieldBits(bits, at, DisplacementBits, displacement);
    MatchBitsFromParts(bits, c, count, displacement, p, fieldAt, at, c + ClassWidth(p));
  }

  /**
    A parsed match has a count above `MaxCount` exactly when its first nine
    bits are all set, which is the escape that introduces a control symbol:
    so a match the decoder actually reaches never has such a count.
   */
  lemma {:induction false} CountAboveMaxIsEscape(bits: seq<bool>, c: nat)
    requires c + 9 <= |bits| && bits[c] && ParseMatch(bits, c).Fits?
    ensures ParseMatch(bits, c).m.count > MaxCount <==> forall t :: c <= t < c + 9 ==> bits[t]
  {
    var m := ParseMatch(bits, c).m;
    ParseMatchLayout(bits, c);
    ParseMatchFields(bits, c);
    if m.sizeClass == MaxClass {
      assert m.base == Field(bits, c + 5, 8);
      HighNibbleAllOnes(bits, c + 5);
      assert m.count > MaxCount <==> m.base >= 240;
      assert forall t :: c < t <= c + 4 ==> bits[t];
      if forall t :: c + 5 <= t < c + 9 ==> bits[t] {
        assert forall t :: c <= t < c + 9 ==> bits[t] by {
          forall t | c <= t < c + 9 ensures bits[t] {
            if t > c && t <= c + 4 {
            }
          }
        }
      }
    } else {
      SmallClassCount(m.sizeClass, m.count);
      assert !bits[c + 1 + m.sizeClass];
    }
  }

  /** A count below the largest size class is below 32. */
  lemma {:induction false} SmallClassCount(p: nat, count: nat)
    requires p < MaxClass && count < Pow2(p + 2)
    ensures count < 32
  {
    Pow2Table();
  }

  /** An eight-bit field reads at least 240 exactly when its first four bits are set. */
  lemma {:induction false} HighNibbleAllOnes(bits: seq<bool>, i: nat)
    requires i + 8 <= |bits|
    ensures Field(bits, i, 8) >= 240 <==> forall t :: i <= t < i + 4 ==> bits[t]
  {
    NibbleAllOnes(bits, i);
    assert Field(bits, i, 5) == 2 * Field(bits, i, 4) + (if bits[i + 4] then 1 else 0);
    assert Field(bits, i, 6) == 2 * Field(bits, i, 5) + (if bits[i + 5] then 1 else 0);
    assert Field(bits, i, 7) == 2 * Field(bits, i, 6) + (if bits[i + 6] then 1 else 0);
    assert Field(bits, i, 8) == 2 * Field(bits, i, 7) + (if bits[i + 7] then 1 else 0);
  }

  /** A four-bit field reads 15 exactly when its four bits are set. */
  lemma {:induction false} NibbleAllOnes(bits: seq<bool>, i: nat)
    requires i + 4 <= |bits|
    ensures Field(bits, i, 4) == 15 <==> forall t :: i <= t < i + 4 ==> bits[t]
    ensures Field(bits, i, 4) < 16
  {
    var s := bits[i..i + 4];
    FieldIsUIntOf(bits, i, 4);
    AllOnes(s);
    assert Pow2(4) == 16;
    assert forall t :: i <= t < i + 4 ==> bits[t] == s[t - i];
  }

  /**
    The bytes a match copy emits: `n` bytes, the last of which is read at
    absolute position `d + n - 1` once the ones before it are in the history.
   */
  function Copy(h: History, d: nat, n: nat): (r: seq<byte>)
    ensures |r| == n
    decreases n
  {
    if n == 0 then []
    else
      var prev := Copy(h, d, n - 1);
      prev + [Get(AddAll(h, prev), d + n - 1)]
  }

  /** A shorter copy from the same place emits a prefix of a longer one. */
  lemma {:induction false} CopyPrefix(h: History, d: nat, n: nat, j: nat)
    requires j <= n
    ensures Copy(h, d, n)[..j] == Copy(h, d, j)
    decreases n
  {
    if j < n {
      CopyPrefix(h, d, n - 1, j);
      CopyExtends(h, d, n);
      TakeTake(Copy(h, d, n), n - 1, j);
    } else {
      TakeAll(Copy(h, d, n));
    }
  }

  /** A copy of `n` bytes starts with the copy of `n - 1` bytes. */
  lemma {:induction false} CopyExtends(h: History, d: nat, n: nat)
    requires n > 0
    ensures Copy(h, d, n)[..n - 1] == Copy(h, d, n - 1)
  {
    var prev := Copy(h, d, n - 1);
    assert Copy(h, d, n) == prev + [Get(AddAll(h, prev), d + n - 1)];
  }

  /** Taking a whole sequence gives the sequence. */
  lemma {:induction false} TakeAll<T>(s: seq<T>)
    ensures s[..|s|] == s
  {
  }

  /** A prefix of a prefix is a prefix. */
  lemma {:induction false} TakeTake<T>(s: seq<T>, a: nat, b: nat)
    requires b <= a <= |s|
    ensures s[..a][..b] == s[..b]
  {
  }

  /**
    Byte `j` of a copy is read at absolute position `d + j` from the history
    as it stands after the `j` bytes before it were written.
   */
  lemma {:induction false} CopyReads(h: History, d: nat, n: nat, j: nat)
    requires j < n
    ensures Copy(h, d, n)[j] == Get(AddAll(h, Copy(h, d, n)[..j]), d + j)
  {
    CopyPrefix(h, d, n, j + 1);
    CopyPrefix(h, d, n, j);
    assert Copy(h, d, n)[j] == Copy(h, d, n)[..j + 1][j];
  }

  /** How far ahead of the write cursor the slot named by `d` lies. */
  function Offset(h: History, d: nat): (off: nat)
    ensures off < Size
    ensures Ahead(h, off) == d % Size
  {
    (d % Size + Size - h.next) % Size
  }

  /**
    How far behind the write cursor a copy from `d` reads: 1 when `d` names
    the slot written last, `Size` when it names the slot about to be
    overwritten.
   */
  function Lag(h: History, d: nat): (k: nat)
    ensures 1 <= k <= Size
  {
    Size - Offset(h, d)
  }

  /** The slot of position `d + j` lies `Offset(h, d) + j` places ahead of the write cursor. */
  lemma {:induction false} SlotShift(h: History, d: nat, j: nat)
    ensures (d + j) % Size == Ahead(h, Offset(h, d) + j)
  {
    SlotShiftBoth(h.next + Offset(h, d), d, j);
  }

  /** A read fewer than `Lag` bytes into a copy finds the slot as it was before the copy. */
  lemma {:induction false} ReadBeforeLag(h: History, d: nat, before: seq<byte>)
    requires |before| < Lag(h, d)
    ensures Get(AddAll(h, before), d + |before|) == Get(h, d + |before|)
  {
    var j, off := |before|, Offset(h, d);
    SlotShift(h, d, j);
    assert Lag(h, d) == Size - off;
    assert j <= off + j < Size;
    assert (d + j) % Size == (h.next + (off + j)) % Size;
    AddAllUntouched(h, before, off + j, d + j);
  }

  /** A read at least `Lag` bytes into a copy finds the byte the copy wrote `Lag` bytes earlier. */
  lemma {:induction false} ReadAfterLag(h: History, d: nat, before: seq<byte>)
    requires Lag(h, d) <= |before|
    ensures Get(AddAll(h, before), d + |before|) == before[|before| - Lag(h, d)]
  {
    var j, off := |before|, Offset(h, d);
    SlotShift(h, d, j);
    var m := off + j - Size;
    assert (h.next + m) % Size == (h.next + off + j) % Size;
    AddAllRecent(h, before, m, d + j);
  }

  /** One byte of a copy, read either from the history as it was or from earlier in the copy. */
  lemma {:induction false} CopyByte(h: History, d: nat, n: nat, j: nat)
    requires j < n
    ensures j < Lag(h, d) ==> Copy(h, d, n)[j] == Get(h, d + j)
    ensures Lag(h, d) <= j ==> Copy(h, d, n)[j] == Copy(h, d, n)[j - Lag(h, d)]
  {
    var r := Copy(h, d, n);
    var before := r[..j];
    CopyReads(h, d, n, j);
    if Lag(h, d) <= j {
      ReadAfterLag(h, d, before);
      assert before[j - Lag(h, d)] == r[j - Lag(h, d)];
    } else {
      ReadBeforeLag(h, d, before);
    }
  }

  /**
    A copy repeats with period `Lag(h, d)`: the first `Lag` bytes are the
    history's bytes from position `d` on, and every later byte repeats the
    byte `Lag` places before it in the same copy.
   */
  lemma {:induction false} CopyRepeats(h: History, d: nat, n: nat)
    ensures forall j :: 0 <= j < n && j < Lag(h, d) ==> Copy(h, d, n)[j] == Get(h, d + j)
    ensures forall j :: Lag(h, d) <= j < n ==> Copy(h, d, n)[j] == Copy(h, d, n)[j - Lag(h, d)]
  {
    forall j | 0 <= j < n
      ensures j < Lag(h, d) ==> Copy(h, d, n)[j] == Get(h, d + j)
      ensures Lag(h, d) <= j ==> Copy(h, d, n)[j] == Copy(h, d, n)[j - Lag(h, d)]
    {
      CopyByte(h, d, n, j);
    }
  }

  /** A displacement naming the slot of the byte written `k` places back lags the cursor by `k`. */
  lemma {:induction false} LagOfRecent(h: History, total: nat, d: nat, k: nat)
    requires h.next == total % Size
    requires 1 <= k <= total && k <= Size
    requires d % Size == (total - k) % Size
    ensures Lag(h, d) == k
  {
    var a := total - k;
    var q, r := a / Size, a % Size;
    assert a == q * Size + r;
    if r + k < Size {
      assert total == q * Size + (r + k);
      assert total % Size == r + k;
    } else {
      assert total == (q + 1) * Size + (r + k - Size);
      assert total % Size == r + k - Size;
    }
  }

  /** A byte of a copy that is read before the copy reaches its own bytes is the output byte `k` places back. */
  lemma {:induction false} CopyFromHistory(w: seq<byte>, d: nat, k: nat, n: nat, j: nat)
    requires 1 <= k <= |w| && k <= Size
    requires d % Size == (|w| - k) % Size
    requires j < n && j < k
    ensures Copy(HistoryOf(w), d, n)[j] == w[|w| - k + j]
  {
    CopyFromRing(w, d, k, n, j);
    RingHoldsRecent(w, d, k, j);
  }

  /** A byte of a copy read before the copy reaches its own bytes comes from the ring as it was. */
  lemma {:induction false} CopyFromRing(w: seq<byte>, d: nat, k: nat, n: nat, j: nat)
    requires 1 <= k <= |w| && k <= Size
    requires d % Size == (|w| - k) % Size
    requires j < n && j < k
    ensures Copy(HistoryOf(w), d, n)[j] == Get(HistoryOf(w), d + j)
  {
    var h := HistoryOf(w);
    HistoryOfRecentAt(w, |w| - 1);
    LagOfRecent(h, |w|, d, k);
    CopyByte(h, d, n, j);
  }

  /** The position `j` past the byte `k` back from the end of `w` reads, in the ring of `w`, the byte of `w` there. */
  lemma {:induction false} RingHoldsRecent(w: seq<byte>, d: nat, k: nat, j: nat)
    requires 1 <= k <= |w| && k <= Size
    requires d % Size == (|w| - k) % Size
    requires j < k
    ensures Get(HistoryOf(w), d + j) == w[|w| - k + j]
  {
    var p := |w| - k + j;
    HistoryOfRecentAt(w, p);
    SlotShiftBoth(d, |w| - k, j);
    SameSlot(HistoryOf(w), d + j, p);
  }

  /** A byte of a copy that is read after the copy has reached its own bytes repeats the copy's byte `k` places back. */
  lemma {:induction false} CopyFromItself(w: seq<byte>, d: nat, k: nat, n: nat, j: nat)
    requires 1 <= k <= |w| && k <= Size
    requires d % Size == (|w| - k) % Size
    requires k <= j < n
    ensures Copy(HistoryOf(w), d, n)[j] == Copy(HistoryOf(w), d, n)[j - k]
  {
    var h := HistoryOf(w);
    assert h.next == |w| % Size;
    LagOfRecent(h, |w|, d, k);
    CopyByte(h, d, n, j);
  }

  /** One byte of a sliding-window copy: it equals the output byte `k` places before it. */
  lemma {:induction false} CopyFollowsOutputAt(w: seq<byte>, d: nat, k: nat, n: nat, j: nat)
    requires 1 <= k <= |w| && k <= Size
    requires d % Size == (|w| - k) % Size
    requires j < n
    ensures (w + Copy(HistoryOf(w), d, n))[|w| + j] == (w + Copy(HistoryOf(w), d, n))[|w| + j - k]
  {
    var r := Copy(HistoryOf(w), d, n);
    var out := w + r;
    assert out[|w| + j] == r[j];
    if j < k {
      CopyFromHistory(w, d, k, n, j);
      assert out[|w| + j - k] == w[|w| - k + j];
    } else {
      CopyFromItself(w, d, k, n, j);
      assert out[|w| + j - k] == r[j - k];
    }
  }

  /**
    The sliding-window meaning of a match: when the history holds the bytes
    `w` written since the last reset and the displacement names the byte
    `k` places back, the copy continues the output by repeating it from `k`
    bytes back, overlapping its own output when `k` is less than the count.
   */
  lemma {:induction false} CopyFollowsOutput(w: seq<byte>, d: nat, k: nat, n: nat)
    requires 1 <= k <= |w| && k <= Size
    requires d % Size == (|w| - k) % Size
    ensures var out := w + Copy(HistoryOf(w), d, n);
      forall i :: |w| <= i < |out| ==> out[i] == out[i - k]
  {
    var out := w + Copy(HistoryOf(w), d, n);
    forall i | |w| <= i < |out|
      ensures out[i] == out[i - k]
    {
      CopyFollowsOutputAt(w, d, k, n, i - |w|);
    }
  }
}
