/** The bit packing of AxiomBP palettes: fixed-width indices in 64-bit words, none
    of them straddling two words. A word is its 64 bits, lowest first. */
module AxiomPacking {
  import opened Arithmetic

  type Word = bits: seq<bool> | |bits| == 64 witness seq(64, _ => false)

  const CELLS := 4096
  const ZEROES: Word := seq(64, _ => false)

  /** The low `width` bits of a value, which is what masking keeps. */
  function BitsOf(value: nat, width: nat): (bits: seq<bool>)
    ensures |bits| == width
  {
    if width == 0 then [] else [value % 2 == 1] + BitsOf(value / 2, width - 1)
  }

  function ValueOf(bits: seq<bool>): nat {
    if bits == [] then 0 else (if bits[0] then 1 else 0) + 2 * ValueOf(bits[1..])
  }

  lemma {:induction false} ValueUndoesBits(value: nat, width: nat)
    ensures value < Power(width) ==> ValueOf(BitsOf(value, width)) == value
  {
    if width > 0 {
      ValueUndoesBits(value / 2, width - 1);
      assert BitsOf(value, width)[1..] == BitsOf(value / 2, width - 1);
    }
  }

  function BitLength(value: nat): nat {
    if value == 0 then 0 else 1 + BitLength(value / 2)
  }

  function AtLeastFour(bits: nat): nat {
    if bits < 4 then 4 else bits
  }

  /** `bits_for_palette`. */
  function PaletteBits(size: nat): nat {
    AtLeastFour(BitLength(if size > 0 then size - 1 else 0))
  }

  method BitsForPalette(size: nat) returns (width: nat)
    ensures width == PaletteBits(size)
  {
    var bits: nat, value: nat := 0, if size > 0 then size - 1 else 0;
    ghost var start := value;
    while value != 0
      invariant bits + BitLength(value) == BitLength(start)
      decreases value
    {
      bits, value := bits + 1, value / 2;
    }
    width := AtLeastFour(bits);
  }

  lemma {:induction false} LengthBounds(value: nat)
    ensures value < Power(BitLength(value))
  {
    if value > 0 {
      LengthBounds(value / 2);
    }
  }

  lemma {:induction false} PowerGrows(a: nat, b: nat)
    requires a <= b
    ensures Power(a) <= Power(b)
  {
    if a < b {
      PowerGrows(a, b - 1);
    }
  }

  lemma {:induction false} LengthAtMost(value: nat, bits: nat)
    requires value < Power(bits)
    ensures BitLength(value) <= bits
  {
    if value > 0 {
      LengthAtMost(value / 2, bits - 1);
    }
  }

  /** Every index into a palette fits its width, and the width of any palette a
      region can have leaves room for at least four indices in a word. */
  lemma WidthFits(size: nat)
    requires 0 < size <= CELLS + 1
    ensures size <= Power(PaletteBits(size)) && 4 <= PaletteBits(size) <= 13
  {
    LengthBounds(size - 1);
    PowerGrows(BitLength(size - 1), PaletteBits(size));
    assert Power(4) == 16 && Power(8) == 256 && Power(12) == 4096 by {
      assert Power(6) == 64 && Power(10) == 1024;
    }
    LengthAtMost(size - 1, 13);
  }

  /** No narrower fields of at least four bits would do. */
  lemma WidthIsNarrowest(size: nat)
    requires 0 < size
    ensures var width := PaletteBits(size);
      4 <= width && size <= Power(width) && (width > 4 ==> size > Power(width - 1))
  {
    LengthBounds(size - 1);
    PowerGrows(BitLength(size - 1), PaletteBits(size));
    if PaletteBits(size) > 4 && size <= Power(PaletteBits(size) - 1) {
      LengthAtMost(size - 1, PaletteBits(size) - 1);
    }
  }

  lemma {:induction false} PowerIsPositive(bits: nat)
    ensures Power(bits) > 0
  {
    if bits > 0 {
      PowerIsPositive(bits - 1);
    }
  }

  /** Bit `j` of a value. */
  lemma {:induction false} BitIs(value: nat, width: nat, j: nat)
    requires j < width
    ensures Power(j) > 0
    ensures BitsOf(value, width)[j] <==> value / Power(j) % 2 == 1
  {
    PowerIsPositive(j);
    if j > 0 {
      BitIs(value / 2, width - 1, j - 1);
      HalfThenQuotient(value, Power(j - 1));
      assert Power(j) == 2 * Power(j - 1) && BitsOf(value, width)[j] == BitsOf(value / 2, width - 1)[j - 1];
    }
  }

  /** `packed |= (value & mask) << shift`. */
  function OrAt(word: Word, shift: nat, field: seq<bool>): Word {
    seq(64, i requires 0 <= i < 64 => word[i] || (shift <= i < shift + |field| && field[i - shift]))
  }

  /** `(word >> shift) & mask`. */
  function FieldAt(word: Word, shift: nat, width: nat): (field: seq<bool>)
    requires shift + width <= 64
    ensures |field| == width
  {
    word[shift..shift + width]
  }

  predicate IsBlank(word: Word, shift: nat, width: nat)
    requires shift + width <= 64
  {
    forall i | shift <= i < shift + width :: !word[i]
  }

  /** Or-ing a field into blank bits stores it; the other fields stay. */
  lemma FieldOr(word: Word, shift: nat, field: seq<bool>, other: nat, width: nat)
    requires shift + |field| <= 64 && other + width <= 64 && |field| == width
    ensures other == shift && IsBlank(word, shift, width) ==> FieldAt(OrAt(word, shift, field), other, width) == field
    ensures other + width <= shift || shift + width <= other ==>
      FieldAt(OrAt(word, shift, field), other, width) == FieldAt(word, other, width)
  {
    var after := OrAt(word, shift, field);
    if other == shift && IsBlank(word, shift, width) {
      assert forall i | shift <= i < shift + width :: after[i] == field[i - shift];
      assert FieldAt(after, shift, width) == field;
    }
    if other + width <= shift || shift + width <= other {
      assert forall i | other <= i < other + width :: after[i] == word[i];
      assert FieldAt(after, other, width) == FieldAt(word, other, width);
    }
  }

  /** Where the index of a cell is kept. */
  datatype Place = Place(word: nat, shift: nat)

  function PlaceOf(index: nat, perWord: nat, width: nat): Place
    requires perWord > 0
  {
    Place(index / perWord, index % perWord * width)
  }

  lemma PlacesApart(i: nat, j: nat, perWord: nat, width: nat)
    requires perWord > 0 && perWord * width <= 64 && width > 0
    ensures PlaceOf(i, perWord, width).shift + width <= 64
    ensures var p, q := PlaceOf(i, perWord, width), PlaceOf(j, perWord, width);
      i != j && p.word == q.word ==> p.shift + width <= q.shift || q.shift + width <= p.shift
  {
    var a, b := i % perWord, j % perWord;
    Ordered(a, perWord, width);
    Ordered(a, b, width);
    Ordered(b, a, width);
    assert i == i / perWord * perWord + a && j == j / perWord * perWord + b;
  }

  lemma Ordered(a: nat, b: nat, width: nat)
    ensures a < b ==> a * width + width <= b * width
  {
    if a < b {
      assert (a + 1) * width <= b * width;
    }
  }

  function WordCount(perWord: nat): nat
    requires perWord > 0
  {
    (CELLS + perWord - 1) / perWord
  }

  lemma WordsSuffice(index: nat, perWord: nat)
    requires perWord > 0 && index < CELLS
    ensures index / perWord < WordCount(perWord)
  {
    var n := WordCount(perWord);
    assert CELLS + perWord - 1 < n * perWord + perWord;
    assert index / perWord * perWord <= index;
    if index / perWord >= n {
      Scaled(n, index / perWord, perWord);
    }
  }

  lemma Scaled(a: nat, b: nat, k: nat)
    requires a <= b
    ensures a * k <= b * k
  {
  }

  function NonNegative(value: int): nat {
    if value < 0 then 0 else value
  }

  /** The words hold the first `count` indices and nothing else. */
  ghost predicate Packed(words: seq<Word>, indices: seq<int>, count: nat, width: nat, perWord: nat)
    requires perWord > 0 && perWord * width <= 64 && width > 0 && |indices| == CELLS
  {
    && |words| == WordCount(perWord)
    && forall i | 0 <= i < CELLS :: Cell(words, i, width, perWord)
         == if i < count then BitsOf(NonNegative(indices[i]), width) else BitsOf(0, width)
  }

  ghost function Cell(words: seq<Word>, index: nat, width: nat, perWord: nat): seq<bool>
    requires perWord > 0 && perWord * width <= 64 && width > 0 && index < CELLS && |words| == WordCount(perWord)
  {
    WordsSuffice(index, perWord);
    PlacesApart(index, index, perWord, width);
    var place := PlaceOf(index, perWord, width);
    FieldAt(words[place.word], place.shift, width)
  }

  lemma {:induction false} ZeroBits(width: nat)
    ensures forall i | 0 <= i < width :: !BitsOf(0, width)[i]
  {
    if width > 0 {
      ZeroBits(width - 1);
    }
  }

  lemma NothingPacked(words: seq<Word>, indices: seq<int>, width: nat, perWord: nat)
    requires perWord > 0 && perWord * width <= 64 && width > 0 && |indices| == CELLS && |words| == WordCount(perWord)
    requires forall k | 0 <= k < |words| :: words[k] == ZEROES
    ensures Packed(words, indices, 0, width, perWord)
  {
    ZeroBits(width);
    forall i | 0 <= i < CELLS
      ensures Cell(words, i, width, perWord) == BitsOf(0, width)
    {
      WordsSuffice(i, perWord);
      PlacesApart(i, i, perWord, width);
    }
  }

  lemma OnePacked(words: seq<Word>, indices: seq<int>, index: nat, width: nat, perWord: nat)
    requires perWord > 0 && perWord * width <= 64 && width > 0 && |indices| == CELLS && index < CELLS
    requires Packed(words, indices, index, width, perWord)
    ensures PlaceOf(index, perWord, width).word < |words|
    ensures var place := PlaceOf(index, perWord, width);
      Packed(words[place.word := OrAt(words[place.word], place.shift, BitsOf(NonNegative(indices[index]), width))],
        indices, index + 1, width, perWord)
  {
    hide OrAt, BitsOf, PlaceOf;
    var place := PlaceOf(index, perWord, width);
    PlaceIsWord(index, perWord, width);
    var field := BitsOf(NonNegative(indices[index]), width);
    var after := words[place.word := OrAt(words[place.word], place.shift, field)];
    forall i | 0 <= i < CELLS
      ensures Cell(after, i, width, perWord)
        == if i < index + 1 then BitsOf(NonNegative(indices[i]), width) else BitsOf(0, width)
    {
      PlaceIsWord(i, perWord, width);
      PlacesApart(i, index, perWord, width);
      PlacesApart(index, i, perWord, width);
      var other := PlaceOf(i, perWord, width);
      assert Cell(words, i, width, perWord) == FieldAt(words[other.word], other.shift, width);
      if other.word == place.word {
        FieldOr(words[place.word], place.shift, field, other.shift, width);
        if i == index {
          Blank(words[place.word], place.shift, width);
        }
      }
    }
  }

  lemma PlaceIsWord(index: nat, perWord: nat, width: nat)
    requires perWord > 0 && perWord * width <= 64 && width > 0 && index < CELLS
    ensures var place := PlaceOf(index, perWord, width);
      place.word < WordCount(perWord) && place.shift + width <= 64
  {
    WordsSuffice(index, perWord);
    PlacesApart(index, index, perWord, width);
  }

  lemma Blank(word: Word, shift: nat, width: nat)
    requires shift + width <= 64 && FieldAt(word, shift, width) == BitsOf(0, width)
    ensures IsBlank(word, shift, width)
  {
    ZeroBits(width);
    forall i | shift <= i < shift + width
      ensures !word[i]
    {
      assert FieldAt(word, shift, width)[i - shift] == word[i];
    }
  }

  function PerWord(width: nat): (perWord: nat)
    requires 0 < width <= 64
    ensures perWord > 0 && perWord * width <= 64
  {
    Fit(width);
    64 / width
  }

  lemma Fit(width: nat)
    requires 0 < width <= 64
    ensures 64 / width > 0 && 64 / width * width <= 64
  {
  }

  /** `pack_indices`: the indices are or-ed into an array of zero words. */
  method PackIndices(indices: seq<int>, paletteSize: nat) returns (words: array<Word>)
    requires |indices| == CELLS && 0 < paletteSize <= CELLS + 1
    ensures fresh(words)
    ensures 0 < PaletteBits(paletteSize) <= 64
    ensures Packed(words[..], indices, CELLS, PaletteBits(paletteSize), PerWord(PaletteBits(paletteSize)))
  {
    hide Packed, OrAt, PlaceOf, BitsOf, PaletteBits;
    WidthFits(paletteSize);
    var width := BitsForPalette(paletteSize);
    var perWord := PerWord(width);
    words := new Word[WordCount(perWord)](_ => ZEROES);
    NothingPacked(words[..], indices, width, perWord);
    for index := 0 to CELLS
      invariant Packed(words[..], indices, index, width, perWord)
    {
      OnePacked(words[..], indices, index, width, perWord);
      var place := PlaceOf(index, perWord, width);
      ghost var before := words[..];
      words[place.word] := OrAt(words[place.word], place.shift, BitsOf(NonNegative(indices[index]), width));
      assert words[..] == before[place.word := words[place.word]];
    }
  }

  /** Unpacking gives every index back, for every palette a region can have. */
  lemma UnpackUndoesPack(words: seq<Word>, indices: seq<int>, paletteSize: nat, index: nat)
    requires |indices| == CELLS && 0 < paletteSize <= CELLS + 1 && index < CELLS
    requires 0 <= indices[index] < paletteSize && 0 < PaletteBits(paletteSize) <= 64
    requires Packed(words, indices, CELLS, PaletteBits(paletteSize), PerWord(PaletteBits(paletteSize)))
    ensures ValueOf(Cell(words, index, PaletteBits(paletteSize), PerWord(PaletteBits(paletteSize)))) == indices[index]
  {
    hide BitsOf, ValueOf, PaletteBits, Cell;
    WidthFits(paletteSize);
    ValueUndoesBits(indices[index], PaletteBits(paletteSize));
  }
}
