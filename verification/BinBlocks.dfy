/** The "bin is not empty" bitmap: four 32-bit words, one bit per bin. */
module BinBlocks {
  import opened Bits

  ghost predicate Words(blocks: seq<nat>) {
    && |blocks| == 4
    && forall w :: 0 <= w < 4 ==> blocks[w] < Pow2(32)
  }

  /** Whether bin i is marked. */
  predicate Marked(blocks: seq<nat>, i: nat)
    requires |blocks| == 4 && i < 128
  {
    Bit(blocks[i / 32], i % 32)
  }

  /** MarkBinBlock: exactly bin `index` becomes marked. */
  function MarkBinBlock(blocks: seq<nat>, index: nat): (r: seq<nat>)
    requires Words(blocks) && index < 128
    ensures Words(r)
    ensures forall i: nat :: i < 128 ==> (Marked(r, i) <==> i == index || Marked(blocks, i))
  {
    var word := index / 32;
    var r := blocks[word := OrBit(blocks[word], index % 32)];
    WordBounds(blocks[word], index % 32, 32);
    assert forall i: nat {:trigger Marked(r, i)} :: i < 128 ==> (Marked(r, i) <==> i == index || Marked(blocks, i)) by {
      forall i: nat | i < 128
        ensures Marked(r, i) <==> i == index || Marked(blocks, i)
      {
        BitOfOr(blocks[word], index % 32, i % 32);
      }
    }
    r
  }

  /** ClearBinBlock: exactly bin `index` becomes unmarked. */
  function ClearBinBlock(blocks: seq<nat>, index: nat): (r: seq<nat>)
    requires Words(blocks) && index < 128
    ensures Words(r)
    ensures forall i: nat :: i < 128 ==> (Marked(r, i) <==> i != index && Marked(blocks, i))
  {
    var word := index / 32;
    var r := blocks[word := AndNotBit(blocks[word], index % 32)];
    WordBounds(blocks[word], index % 32, 32);
    assert forall i: nat {:trigger Marked(r, i)} :: i < 128 ==> (Marked(r, i) <==> i != index && Marked(blocks, i)) by {
      forall i: nat | i < 128
        ensures Marked(r, i) <==> i != index && Marked(blocks, i)
      {
        BitOfAndNot(blocks[word], index % 32, i % 32);
      }
    }
    r
  }

  /** Bin 32 * word + b is bit b of its word. */
  lemma MarkedAt(blocks: seq<nat>, word: nat, b: nat)
    requires |blocks| == 4 && word < 4 && b < 32
    ensures Marked(blocks, 32 * word + b) <==> Bit(blocks[word], b)
  {
    assert (32 * word + b) / 32 == word;
  }

  /** CTZ of a word whose bits below `from` are masked off finds its least marked bin from there on. */
  lemma LowestInWord(blocks: seq<nat>, word: nat, from: nat, bits: nat)
    requires Words(blocks) && word < 4 && from < 32
    requires bits == KeepFrom(blocks[word], from) && bits > 0
    ensures from <= CTZ(bits) < 32 && Marked(blocks, 32 * word + CTZ(bits))
    ensures forall i: nat :: 32 * word + from <= i < 32 * word + CTZ(bits) ==> !Marked(blocks, i)
  {
    LowestBit(bits);
    WordBounds(blocks[word], from, 32);
    if CTZ(bits) >= 32 { NoHighBit(bits, 32, CTZ(bits)); }
    BitOfKeep(blocks[word], from, CTZ(bits));
    MarkedAt(blocks, word, CTZ(bits));
    forall i: nat | 32 * word + from <= i < 32 * word + CTZ(bits)
      ensures !Marked(blocks, i)
    {
      var b := i - 32 * word;
      assert !Bit(bits, b);
      BitOfKeep(blocks[word], from, b);
      MarkedAt(blocks, word, b);
    }
  }

  /** A word below 1 << from has no marked bin from there on. */
  lemma NoneInWord(blocks: seq<nat>, word: nat, from: nat)
    requires Words(blocks) && word < 4 && from < 32
    requires blocks[word] < Pow2(from)
    ensures forall i: nat :: 32 * word + from <= i < 32 * word + 32 ==> !Marked(blocks, i)
  {
    forall i: nat | 32 * word + from <= i < 32 * word + 32
      ensures !Marked(blocks, i)
    {
      MarkedAt(blocks, word, i - 32 * word);
      NoHighBit(blocks[word], from, i - 32 * word);
    }
  }

  lemma KeepNonZero(w: nat, k: nat)
    requires w >= Pow2(k)
    ensures KeepFrom(w, k) > 0
  {
    var j := HighBit(w, k);
    BitOfKeep(w, k, j);
    if KeepFrom(w, k) == 0 { NoHighBit(0, 0, j); }
  }

  /** NextFullBin: the least marked bin at or above `start`, or -1 when there is none. */
  method NextFullBin(blocks: seq<nat>, start: nat) returns (r: int)
    requires Words(blocks)
    ensures -1 <= r < 128
    ensures r == -1 ==> forall i: nat :: start <= i < 128 ==> !Marked(blocks, i)
    ensures r >= 0 ==> start <= r && Marked(blocks, r) && forall i: nat :: start <= i < r ==> !Marked(blocks, i)
  {
    if start >= 128 { return -1; }
    var word := start / 32;
    var bitPosition := start % 32;
    var bitValue := Pow2(bitPosition);
    var binBits := blocks[word];
    if binBits >= bitValue {
      KeepNonZero(binBits, bitPosition);
      binBits := KeepFrom(binBits, bitPosition);
      LowestInWord(blocks, word, bitPosition, binBits);
    } else {
      NoneInWord(blocks, word, bitPosition);
      word := word + 1;
      while word < 4 && blocks[word] == 0
        invariant start < 32 * word <= 128
        invariant forall i: nat :: start <= i < 32 * word ==> !Marked(blocks, i)
      {
        NoneInWord(blocks, word, 0);
        word := word + 1;
      }
      if word == 4 { return -1; }
      binBits := blocks[word];
      LowestInWord(blocks, word, 0, binBits);
    }
    bitPosition := CTZ(binBits);
    r := word * 32 + bitPosition;
  }
}
