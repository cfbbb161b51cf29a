/** The list logic of the multi-equation data loader
    (mwptoolkit/data/dataloader/multi_equation_dataloader.py): the
    number-availability mask, contiguous batch slicing in `load_data`, first
    positions of numbers, the SOS/EOS framing and position shifts of
    `load_batch`, and the span-position tables of `load_batch_spans`.

    Tensors are nested integer lists. The token-to-index helpers of the
    abstract loader are not part of this model and are parameters
    (`Indexers`); padding, validity masks and the number stack are not
    modelled. */
module MultiEquationDataLoader {
  import opened Outcomes
  import opened Seqs
  import opened MultiEquationDataset

  // ---------------------------------------------------------------------
  // get_num_mask
  // ---------------------------------------------------------------------

  /** `[0] * d + [1] * (width - d)`. */
  function MaskRow(d: nat, width: nat): seq<int>
    requires d <= width
  {
    seq(d, _ => 0) + seq(width - d, _ => 1)
  }

  /** `get_num_mask`: one row per example, all of width
      `max(sizes) + len(generate_nums)`; in row `i` the first
      `sizes[i] + len(generate_nums)` entries are 0 and the rest are 1.
      `max` of an empty list raises `ValueError`. */
  function NumMask(numSizes: seq<nat>, generateCount: nat): (r: Result<seq<seq<int>>>)
    ensures r.Failure? <==> |numSizes| == 0
    ensures r.Success? ==>
      && |r.value| == |numSizes|
      && forall i | 0 <= i < |numSizes| ::
           && |r.value[i]| == Max(numSizes) + generateCount
           && (forall j | 0 <= j < |r.value[i]| ::
                 r.value[i][j] == if j < numSizes[i] + generateCount then 0 else 1)
  {
    if |numSizes| == 0 then Failure(ValueError("max() arg is an empty sequence"))
    else
      var width := Max(numSizes) + generateCount;
      assert forall i | 0 <= i < |numSizes| :: numSizes[i] in numSizes;
      Success(seq(|numSizes|, i requires 0 <= i < |numSizes| => MaskRow(numSizes[i] + generateCount, width)))
  }

  /** In every mask row the zeros count the example's own numbers plus the
      generated constants, and the ones make up the difference to the widest
      example. */
  lemma {:induction false} NumMaskCounts(numSizes: seq<nat>, generateCount: nat, i: nat)
    requires 0 < |numSizes| && i < |numSizes|
    ensures var row := NumMask(numSizes, generateCount).value[i];
      && multiset(row)[0] == numSizes[i] + generateCount
      && multiset(row)[1] == Max(numSizes) - numSizes[i]
  {
    var d := numSizes[i] + generateCount;
    var width := Max(numSizes) + generateCount;
    assert numSizes[i] in numSizes;
    var row := NumMask(numSizes, generateCount).value[i];
    assert row == seq(d, _ => 0) + seq(width - d, _ => 1);
    RepeatCount(0, d, 1);
    RepeatCount(1, width - d, 0);
  }

  /** A list of `n` copies of `x` holds `x` exactly `n` times and no `y`. */
  lemma {:induction false} RepeatCount(x: int, n: nat, y: int)
    requires x != y
    ensures multiset(seq(n, _ => x))[x] == n
    ensures multiset(seq(n, _ => x))[y] == 0
  {
    if n > 0 {
      RepeatCount(x, n - 1, y);
      assert seq(n, _ => x) == seq(n - 1, _ => x) + [x];
    }
  }

  // ---------------------------------------------------------------------
  // load_data: contiguous slicing
  // ---------------------------------------------------------------------

  /** Python's normalisation of a slice bound for a list of length `n`. */
  function SliceBound(i: int, n: nat): (r: nat)
    ensures r <= n
  {
    if i < 0 then (if i + n < 0 then 0 else i + n)
    else if i > n then n
    else i
  }

  /** `s[a:b]` with Python's treatment of negative and out-of-range bounds:
      in-range bounds slice as usual, a negative start counts from the end,
      an end past the list stops at its end, and the result is always a run
      of consecutive elements starting at the normalised start. */
  function PySlice<T>(s: seq<T>, a: int, b: int): (r: seq<T>)
    ensures 0 <= a <= b <= |s| ==> r == s[a..b]
    ensures -|s| <= a < 0 && |s| <= b ==> r == s[|s| + a..]
    ensures b <= a && (0 <= a || b < 0) && (b >= 0 || a < 0) ==> r == []
    ensures SliceBound(a, |s|) + |r| <= |s|
    ensures forall k | 0 <= k < |r| :: r[k] == s[SliceBound(a, |s|) + k]
  {
    var lo := SliceBound(a, |s|);
    var hi := SliceBound(b, |s|);
    if lo < hi then s[lo..hi] else []
  }

  /** `int(a / b)`: true division truncated toward zero. */
  function TruncDiv(a: int, b: int): (r: int)
    requires b != 0
    ensures var rem := a - r * b;
      && (if rem < 0 then -rem else rem) < (if b < 0 then -b else b)
      && (rem == 0 || (rem > 0) == (a > 0))
  {
    var x := if a < 0 then -a else a;
    var y := if b < 0 then -b else b;
    var q := x / y;
    var r := if (a >= 0) == (b > 0) then q else -q;
    TruncRemainder(a, b, x, y, q, r);
    r
  }

  /** The remainder of a truncated quotient is the remainder of the
      magnitudes, carrying the sign of the dividend. */
  lemma TruncRemainder(a: int, b: int, x: nat, y: nat, q: int, r: int)
    requires b != 0 && x == (if a < 0 then -a else a) && y == (if b < 0 then -b else b)
    requires q == x / y && r == (if (a >= 0) == (b > 0) then q else -q)
    ensures var rem := a - r * b;
      && (if rem < 0 then -rem else rem) < y
      && (rem == 0 || (rem > 0) == (a > 0))
  {
    var m := x % y;
    var p := q * y;
    assert 0 <= m < y && x == p + m;
    if b > 0 {
      assert r * b == (if a >= 0 then p else -p);
    } else {
      assert r * b == (if a >= 0 then p else -p);
    }
    assert a - r * b == (if a < 0 then -m else m);
    if a == 0 {
      assert q == 0 && m == 0;
    }
  }

  /** `ceil(n / k)`. */
  function CeilDiv(n: nat, k: nat): nat
    requires k > 0
  {
    (n + k - 1) / k
  }

  /** The slices cover `data` in order, none is empty, all but the last are
      full, and there are `ceil(len(data) / size)` of them. */
  ghost predicate WellSliced<T>(batches: seq<seq<T>>, data: seq<T>, size: nat)
    requires size > 0
  {
    && Flatten(batches) == data
    && (forall k | 0 <= k < |batches| :: 0 < |batches[k]| <= size)
    && (forall k | 0 <= k < |batches| - 1 :: |batches[k]| == size)
    && |batches| == CeilDiv(|data|, size)
  }

  /** Facts about the `i`-th slice bounds of a positive batch size. */
  lemma SliceArithmetic(i: nat, n: nat, size: int)
    requires size > 0 && i <= n / size
    ensures i * size <= n
    ensures (i + 1) * size == i * size + size
    ensures i < n / size ==> (i + 1) * size <= n
    ensures i == n / size ==> n < (i + 1) * size && n - i * size == n % size
    ensures CeilDiv(n, size) == if n % size == 0 then n / size else n / size + 1
  {
    var q := n / size;
    MulStep(i, size);
    MulMono(i, q, size);
    if i < q {
      MulMono(i + 1, q, size);
    }
    MulStep(q, size);
    CeilDivCases(n, size);
  }

  /** `(a + 1) * c == a * c + c`. */
  lemma MulStep(a: nat, c: nat)
    ensures (a + 1) * c == a * c + c
  {
  }

  /** Multiplication by a natural number is monotone. */
  lemma {:induction false} MulMono(a: nat, b: nat, c: nat)
    requires a <= b
    ensures a * c <= b * c
    decreases b - a
  {
    if a < b {
      MulMono(a, b - 1, c);
      MulStep(b - 1, c);
    }
  }

  /** `x == q * d + r` with `0 <= r < d` fixes `x / d` as `q`. */
  lemma DivUnique(x: nat, d: nat, q: nat, r: nat)
    requires d > 0 && r < d && x == q * d + r
    ensures x / d == q
  {
    var q' := x / d;
    if q' < q {
      MulMono(q' + 1, q, d);
      MulStep(q', d);
    } else if q' > q {
      MulMono(q + 1, q', d);
      MulStep(q, d);
    }
  }

  /** The number of slices: `n / size`, plus one for a partial remainder. */
  lemma CeilDivCases(n: nat, size: nat)
    requires size > 0
    ensures CeilDiv(n, size) == if n % size == 0 then n / size else n / size + 1
  {
    var q := n / size;
    var r := n % size;
    if r == 0 {
      DivUnique(n + size - 1, size, q, size - 1);
    } else {
      MulStep(q, size);
      DivUnique(n + size - 1, size, q + 1, r - 1);
    }
  }

  /** For a negative batch size the loop runs at most once, and only when
      the data is shorter than the size's magnitude. */
  lemma NegativeSizeArithmetic(n: nat, size: int)
    requires size < 0
    ensures TruncDiv(n, size) + 1 <= 1
    ensures TruncDiv(n, size) + 1 == 1 ==> n + size < 0
  {
    if n >= -size {
      assert n / -size >= 1;
    }
  }

  /** The slice taken in round `i`: `data[i*size : (i+1)*size]`, or
      `data[i*size : n]` once the end bound passes `n`. */
  function SliceAt<T>(data: seq<T>, size: int, i: int): (r: seq<T>)
    ensures 0 < size && 0 <= i && i * size <= |data| ==>
      |r| == (if |data| - i * size < size then |data| - i * size else size)
      && r == data[i * size..][..|r|]
  {
    var startIdx := i * size;
    var endIdx := (i + 1) * size;
    if endIdx <= |data| then PySlice(data, startIdx, endIdx) else PySlice(data, startIdx, |data|)
  }

  /** The slicing state after `i` rounds of a positive batch size. */
  ghost predicate SlicedUpTo<T>(batches: seq<seq<T>>, data: seq<T>, size: nat, i: nat)
    requires size > 0
  {
    var n := |data|;
    && Flatten(batches) == data[..if i * size <= n then i * size else n]
    && |batches| == (if i * size <= n then i else CeilDiv(n, size))
    && (forall k | 0 <= k < |batches| :: 0 < |batches[k]| <= size)
    && (forall k | 0 <= k < |batches| - 1 :: |batches[k]| == size)
    && (i * size <= n ==> forall k | 0 <= k < |batches| :: |batches[k]| == size)
  }

  /** One round of the loop keeps the slicing state. */
  lemma SliceStep<T>(batches: seq<seq<T>>, data: seq<T>, size: nat, i: nat)
    requires size > 0 && i <= |data| / size && SlicedUpTo(batches, data, size, i)
    ensures var batch := SliceAt(data, size, i);
      SlicedUpTo(if batch != [] then batches + [batch] else batches, data, size, i + 1)
  {
    var n := |data|;
    SliceArithmetic(i, n, size);
    if i + 1 <= n / size {
      SliceArithmetic(i + 1, n, size);
    }
    var batch := SliceAt(data, size, i);
    var endIdx := if (i + 1) * size <= n then (i + 1) * size else n;
    assert batch == if i * size < endIdx then data[i * size..endIdx] else [];
    if batch != [] {
      assert data[..endIdx] == data[..i * size] + batch;
      var nb := batches + [batch];
      assert nb[..|nb| - 1] == batches;
    }
  }

  /** After the last round the slicing state is the final one. */
  lemma SliceDone<T>(batches: seq<seq<T>>, data: seq<T>, size: nat)
    requires size > 0 && SlicedUpTo(batches, data, size, |data| / size + 1)
    ensures WellSliced(batches, data, size)
  {
    var q := |data| / size;
    SliceArithmetic(q, |data|, size);
    assert !((q + 1) * size <= |data|);
    assert data[..|data|] == data;
  }

  /** For a negative size the single possible round takes an empty slice. */
  lemma NegativeSizeSlice<T>(data: seq<T>, size: int)
    requires size < 0 && TruncDiv(|data|, size) + 1 == 1
    ensures SliceAt(data, size, 0) == []
  {
    NegativeSizeArithmetic(|data|, size);
  }

  /** The slicing loop of `load_data`, as written: `int(n / size) + 1`
      rounds, slice `[i*size : (i+1)*size]` (or up to `n` on overrun), and
      empty slices skipped. A negative size yields nothing. */
  method SliceBatches<T>(data: seq<T>, size: int) returns (batches: seq<seq<T>>)
    requires size != 0
    ensures size > 0 ==> WellSliced(batches, data, size)
    ensures size < 0 ==> batches == []
  {
    var n := |data|;
    var batchNum := TruncDiv(n, size) + 1;
    batches := [];
    var i := 0;
    if size > 0 {
      assert batchNum == n / size + 1;
      while i < batchNum
        invariant 0 <= i <= batchNum
        invariant SlicedUpTo(batches, data, size, i)
        decreases batchNum - i
      {
        var batch := SliceAt(data, size, i);
        SliceStep(batches, data, size, i);
        if batch != [] {
          batches := batches + [batch];
        }
        i := i + 1;
      }
      SliceDone(batches, data, size);
    } else {
      NegativeSizeArithmetic(n, size);
      while i < batchNum
        invariant 0 <= i <= 1
        invariant batches == []
        decreases batchNum - i
      {
        var batch := SliceAt(data, size, i);
        NegativeSizeSlice(data, size);
        if batch != [] {
          batches := batches + [batch];
        }
        i := i + 1;
      }
    }
  }

  /** Full slices before position `k` account for `k * size` elements. */
  lemma {:induction false} FullPrefixLength<T>(batches: seq<seq<T>>, size: nat, k: nat)
    requires k <= |batches|
    requires forall i | 0 <= i < k :: |batches[i]| == size
    ensures |Flatten(batches[..k])| == k * size
  {
    if k > 0 {
      FullPrefixLength(batches, size, k - 1);
      assert batches[..k][..k - 1] == batches[..k - 1];
      MulStep(k - 1, size);
    }
  }

  /** The last slice holds what the full slices leave over. */
  lemma LastSliceLength<T>(batches: seq<seq<T>>, data: seq<T>, size: nat)
    requires size > 0 && WellSliced(batches, data, size) && |batches| > 0
    ensures |batches[|batches| - 1]| == |data| - (|batches| - 1) * size
  {
    var k := |batches| - 1;
    FullPrefixLength(batches, size, k);
    assert batches[..|batches|] == batches;
  }

  /** Five examples in batches of two come out as slices of 2, 2 and 1, in
      order, with nothing dropped or repeated. */
  lemma FiveInTwos<T>(batches: seq<seq<T>>, data: seq<T>)
    requires |data| == 5 && WellSliced(batches, data, 2)
    ensures |batches| == 3
    ensures |batches[0]| == 2 && |batches[1]| == 2 && |batches[2]| == 1
    ensures Flatten(batches) == data
  {
    LastSliceLength(batches, data, 2);
  }

  /** The three splits of a dataset. */
  datatype Splits = Splits(trainset: seq<Example>, validset: seq<Example>, testset: seq<Example>)

  /** The split and batch size `load_data` picks for a split name. */
  function SplitChoice(split: string, splits: Splits, trainBatchSize: int, testBatchSize: int)
    : (r: Result<(seq<Example>, int)>)
    ensures r.Failure? <==> split !in ["train", "valid", "test"]
    ensures r.Failure? ==> r.error.ValueError?
    ensures split == "train" ==> r == Success((splits.trainset, trainBatchSize))
    ensures split == "valid" ==> r == Success((splits.validset, testBatchSize))
    ensures split == "test" ==> r == Success((splits.testset, testBatchSize))
  {
    if split == "train" then Success((splits.trainset, trainBatchSize))
    else if split == "valid" then Success((splits.validset, testBatchSize))
    else if split == "test" then Success((splits.testset, testBatchSize))
    else Failure(ValueError(split))
  }

  /** `load_data`: the batch slices it hands to `load_batch`, in order. Only
      "train", "valid" and "test" are accepted; training uses the training
      batch size and the other two the test batch size; a zero batch size
      raises on the division. */
  method LoadData(split: string, splits: Splits, trainBatchSize: int, testBatchSize: int)
    returns (r: Result<seq<seq<Example>>>)
    ensures split !in ["train", "valid", "test"] ==> r == Failure(ValueError(split))
    ensures split in ["train", "valid", "test"] ==>
      var data := SplitChoice(split, splits, trainBatchSize, testBatchSize).value.0;
      var size := SplitChoice(split, splits, trainBatchSize, testBatchSize).value.1;
      && (size == 0 <==> r.Failure?)
      && (size == 0 ==> r == Failure(ZeroDivisionError))
      && (size > 0 ==> r.Success? && WellSliced(r.value, data, size))
      && (size < 0 ==> r == Success([]))
  {
    var choice := SplitChoice(split, splits, trainBatchSize, testBatchSize);
    if choice.Failure? {
      return Failure(choice.error);
    }
    var (data, size) := choice.value;
    if size == 0 {
      return Failure(ZeroDivisionError);
    }
    var batches := SliceBatches(data, size);
    return Success(batches);
  }

  // ---------------------------------------------------------------------
  // _get_number_position
  // ---------------------------------------------------------------------

  /** `_get_number_position`: for each number, the first position in
      `sequence` of its input index. A number with no input index raises
      `KeyError`; an index absent from the sequence raises `ValueError`. */
  function NumberPositions(sequence: seq<int>, numList: seq<string>, word2idx: map<string, nat>)
    : (r: Result<seq<nat>>)
    ensures r.Success? <==>
      forall k | 0 <= k < |numList| :: numList[k] in word2idx && word2idx[numList[k]] in sequence
    ensures r.Failure? ==> r.error.KeyError? || r.error.ValueError?
    ensures r.Success? ==>
      && |r.value| == |numList|
      && forall k | 0 <= k < |numList| :: FirstAt(sequence, word2idx[numList[k]] as int, r.value[k])
  {
    if |numList| == 0 then Success([])
    else
      var num := numList[0];
      if num !in word2idx then Failure(KeyError(num))
      else
        match IndexOf(sequence, word2idx[num] as int)
        case None => Failure(ValueError(num))
        case Some(p) =>
          var rest := NumberPositions(sequence, numList[1..], word2idx);
          if rest.Failure? then
            assert exists k | 0 <= k < |numList[1..]| ::
              !(numList[1..][k] in word2idx && word2idx[numList[1..][k]] in sequence);
            rest
          else
            Success([p] + rest.value)
  }

  // ---------------------------------------------------------------------
  // load_batch: list-level framing
  // ---------------------------------------------------------------------

  /** The abstract loader's token-to-index helpers `_word2idx`,
      `_equ_symbol2idx` and `_temp_symbol2idx`. */
  datatype Indexers = Indexers(
    word2idx: seq<string> -> seq<int>,
    equSymbol2idx: seq<string> -> seq<int>,
    tempSymbol2idx: seq<string> -> seq<int>)

  /** The loader options `load_batch` reads; `withSpans` is the model-name
      selector that asks for span tables. */
  datatype LoaderOptions = LoaderOptions(
    addSos: bool,
    addEos: bool,
    shareVocab: bool,
    symbolForTree: bool,
    equationFix: FixType,
    withSpans: bool)

  /** What `load_batch` reads from the dataset besides the examples. */
  datatype LoaderContext = LoaderContext(
    opts: LoaderOptions,
    vocab: Vocab,
    tempSymbol2Idx: map<string, nat>,
    generateList: seq<string>,
    numMaskNumber: seq<string>,
    idx: Indexers)

  /** Tree decoders take equations without EOS. */
  predicate TreeMode(opts: LoaderOptions) {
    opts.symbolForTree || opts.equationFix == MultiWayTree
  }

  /** `d[k]`, raising `KeyError` when `k` is absent. */
  function Lookup(d: map<string, nat>, k: string): (r: Result<nat>)
    ensures r.Success? <==> k in d
    ensures r.Success? ==> r.value == d[k]
    ensures r.Failure? ==> r.error == KeyError(k)
  {
    if k in d then Success(d[k]) else Failure(KeyError(k))
  }

  /** The padding and unknown-word indices the loader's constructor reads.
      The unknown-word indices are what the index helpers map unseen tokens
      to. In tree mode no template padding index is set. */
  datatype SpecialIndices = SpecialIndices(
    inPad: nat, inUnk: nat, outPad: nat, outUnk: nat, tempPad: Option<nat>, tempUnk: nat)

  /** The special-token lookups of the loader's constructor, in order. The
      input PAD and UNK are always read; tree mode reads the output and
      template UNK; a shared vocabulary reuses the input indices; otherwise
      the output and template PAD and UNK are read. The first missing key
      raises `KeyError`. */
  function LoaderIndices(ctx: LoaderContext): (r: Result<SpecialIndices>)
    ensures r.Success? <==> ConstructorKeysPresent(ctx)
    ensures r.Failure? ==> r.error == KeyError(PadToken) || r.error == KeyError(UnkToken)
    ensures PadToken !in ctx.vocab.inWord2Idx ==> r == Failure(KeyError(PadToken))
    ensures r.Success? ==>
      && r.value.inPad == ctx.vocab.inWord2Idx[PadToken]
      && r.value.inUnk == ctx.vocab.inWord2Idx[UnkToken]
      && r.value.outPad == (if TreeMode(ctx.opts) || ctx.opts.shareVocab then r.value.inPad
                            else ctx.vocab.outSymbol2Idx[PadToken])
      && r.value.outUnk == (if !TreeMode(ctx.opts) && ctx.opts.shareVocab then r.value.inUnk
                            else ctx.vocab.outSymbol2Idx[UnkToken])
      && r.value.tempUnk == (if !TreeMode(ctx.opts) && ctx.opts.shareVocab then r.value.inUnk
                             else ctx.tempSymbol2Idx[UnkToken])
      && (r.value.tempPad.None? <==> TreeMode(ctx.opts))
  {
    var inPad :- Lookup(ctx.vocab.inWord2Idx, PadToken);
    var inUnk :- Lookup(ctx.vocab.inWord2Idx, UnkToken);
    if TreeMode(ctx.opts) then
      var outUnk :- Lookup(ctx.vocab.outSymbol2Idx, UnkToken);
      var tempUnk :- Lookup(ctx.tempSymbol2Idx, UnkToken);
      Success(SpecialIndices(inPad, inUnk, inPad, outUnk, None, tempUnk))
    else if ctx.opts.shareVocab then
      Success(SpecialIndices(inPad, inUnk, inPad, inUnk, Some(inPad), inUnk))
    else
      var outPad :- Lookup(ctx.vocab.outSymbol2Idx, PadToken);
      var outUnk :- Lookup(ctx.vocab.outSymbol2Idx, UnkToken);
      var tempPad :- Lookup(ctx.tempSymbol2Idx, PadToken);
      var tempUnk :- Lookup(ctx.tempSymbol2Idx, UnkToken);
      Success(SpecialIndices(inPad, inUnk, outPad, outUnk, Some(tempPad), tempUnk))
  }

  /** Every key the constructor looks up is present. */
  predicate ConstructorKeysPresent(ctx: LoaderContext) {
    && PadToken in ctx.vocab.inWord2Idx && UnkToken in ctx.vocab.inWord2Idx
    && (TreeMode(ctx.opts) ==> UnkToken in ctx.vocab.outSymbol2Idx && UnkToken in ctx.tempSymbol2Idx)
    && (!TreeMode(ctx.opts) && !ctx.opts.shareVocab ==>
          && PadToken in ctx.vocab.outSymbol2Idx && UnkToken in ctx.vocab.outSymbol2Idx
          && PadToken in ctx.tempSymbol2Idx && UnkToken in ctx.tempSymbol2Idx)
  }

  /** A vocabulary the dataset built, with PAD and UNK among its special
      tokens, passes every constructor lookup into it; only the template
      table, which the dataset does not build, must supply its own keys. */
  lemma BuiltVocabServesConstructor(trainset: seq<Example>, vopts: VocabOptions, prep: Prepared,
                                    enums: Enums, ctx: LoaderContext)
    requires BuildVocab(trainset, vopts, prep, enums) == Success(ctx.vocab)
    requires PadToken in enums.specialTokens && UnkToken in enums.specialTokens
    requires ctx.opts.symbolForTree == vopts.symbolForTree
    requires TreeMode(ctx.opts) ==> UnkToken in ctx.tempSymbol2Idx
    requires !TreeMode(ctx.opts) && !ctx.opts.shareVocab ==>
      PadToken in ctx.tempSymbol2Idx && UnkToken in ctx.tempSymbol2Idx
    ensures LoaderIndices(ctx).Success?
  {
    BuiltVocabSpecialKeys(trainset, vopts, prep, enums, ctx.vocab);
  }

  /** The dictionary lookups `load_batch` performs for every example, in
      source order: SOS (line 174), EOS (line 177), then the equation and
      template EOS outside tree mode (lines 186-190). */
  function FrameLookups(ctx: LoaderContext): (r: Result<()>)
    ensures r.Success? <==> LookupsDefined(ctx)
    ensures r.Failure? ==>
      r.error == KeyError(if ctx.opts.addSos && SosToken !in ctx.vocab.inWord2Idx then SosToken else EosToken)
  {
    var sos :- if ctx.opts.addSos then Lookup(ctx.vocab.inWord2Idx, SosToken) else Success(0);
    var eos :- if ctx.opts.addEos then Lookup(ctx.vocab.inWord2Idx, EosToken) else Success(0);
    if TreeMode(ctx.opts) then Success(())
    else if ctx.opts.shareVocab then
      // the template's EOS is the same lookup as the equation's
      var equEos :- Lookup(ctx.vocab.inWord2Idx, EosToken);
      Success(())
    else
      var equEos :- Lookup(ctx.vocab.outSymbol2Idx, EosToken);
      var tempEos :- Lookup(ctx.tempSymbol2Idx, EosToken);
      Success(())
  }

  /** A vocabulary the dataset built, with SOS and EOS among its special
      tokens, passes every `load_batch` lookup into it; only the template
      table, which the dataset does not build, must supply its own EOS. */
  lemma BuiltVocabServesFraming(trainset: seq<Example>, vopts: VocabOptions, prep: Prepared,
                                enums: Enums, ctx: LoaderContext)
    requires BuildVocab(trainset, vopts, prep, enums) == Success(ctx.vocab)
    requires SosToken in enums.specialTokens && EosToken in enums.specialTokens
    requires ctx.opts.symbolForTree == vopts.symbolForTree
    requires !TreeMode(ctx.opts) && !ctx.opts.shareVocab ==> EosToken in ctx.tempSymbol2Idx
    ensures LookupsDefined(ctx)
    ensures FrameLookups(ctx).Success?
  {
    BuiltVocabSpecialKeys(trainset, vopts, prep, enums, ctx.vocab);
  }

  /** The success condition of `FrameLookups`: every key `load_batch` looks
      up is present. */
  predicate LookupsDefined(ctx: LoaderContext) {
    && (ctx.opts.addSos ==> SosToken in ctx.vocab.inWord2Idx)
    && (ctx.opts.addEos ==> EosToken in ctx.vocab.inWord2Idx)
    && (!TreeMode(ctx.opts) && ctx.opts.shareVocab ==> EosToken in ctx.vocab.inWord2Idx)
    && (!TreeMode(ctx.opts) && !ctx.opts.shareVocab ==>
          EosToken in ctx.vocab.outSymbol2Idx && EosToken in ctx.tempSymbol2Idx)
  }

  /** The question indices: optional SOS, the word indices, optional EOS. */
  function QuestionIndices(ex: Example, ctx: LoaderContext): seq<int>
    requires LookupsDefined(ctx)
  {
    (if ctx.opts.addSos then [ctx.vocab.inWord2Idx[SosToken] as int] else [])
    + ctx.idx.word2idx(ex.question)
    + (if ctx.opts.addEos then [ctx.vocab.inWord2Idx[EosToken] as int] else [])
  }

  /** The EOS index appended to equations and templates outside tree mode. */
  function EquationEos(ctx: LoaderContext): int
    requires LookupsDefined(ctx) && !TreeMode(ctx.opts)
  {
    if ctx.opts.shareVocab then ctx.vocab.inWord2Idx[EosToken] else ctx.vocab.outSymbol2Idx[EosToken]
  }

  function TemplateEos(ctx: LoaderContext): int
    requires LookupsDefined(ctx) && !TreeMode(ctx.opts)
  {
    if ctx.opts.shareVocab then ctx.vocab.inWord2Idx[EosToken] else ctx.tempSymbol2Idx[EosToken]
  }

  function EquationIndices(ex: Example, ctx: LoaderContext): seq<int>
    requires LookupsDefined(ctx)
  {
    ctx.idx.equSymbol2idx(ex.equation) + (if TreeMode(ctx.opts) then [] else [EquationEos(ctx)])
  }

  function TemplateIndices(ex: Example, ctx: LoaderContext): seq<int>
    requires LookupsDefined(ctx)
  {
    ctx.idx.tempSymbol2idx(ex.template) + (if TreeMode(ctx.opts) then [] else [TemplateEos(ctx)])
  }

  /** Positions moved by one when SOS is prepended. */
  function ShiftPositions(ps: seq<int>, addSos: bool): seq<int> {
    seq(|ps|, k requires 0 <= k < |ps| => if addSos then ps[k] + 1 else ps[k])
  }

  /** The `group nums` entry, `[]` when absent, with every position shifted. */
  function ShiftedGroupNums(ex: Example, addSos: bool): seq<seq<int>> {
    var groups := match ex.groupNums case Some(g) => g case None => [];
    seq(|groups|, g requires 0 <= g < |groups| => ShiftPositions(groups[g], addSos))
  }

  /** `' '.join(words)`: empty for no words, and splitting it on spaces
      gives the words back when none of them contains a space. */
  function JoinWords(words: seq<string>): (r: string)
    ensures |words| == 0 ==> r == ""
    ensures |words| > 0 && (forall w | w in words :: ' ' !in w) ==> Split(r, ' ') == words
  {
    if |words| == 0 then ""
    else if forall w | w in words :: ' ' !in w then SplitJoin(words, ' '); JoinOn(words, ' ')
    else JoinOn(words, ' ')
  }

  // ---------------------------------------------------------------------
  // load_batch_spans
  // ---------------------------------------------------------------------

  /** Every output symbol has a class index inside the output table. */
  predicate OutIndexValid(v: Vocab) {
    forall w | w in v.outIdx2Symbol :: w in v.outSymbol2Idx && v.outSymbol2Idx[w] < |v.outIdx2Symbol|
  }

  /** A vocabulary built by the dataset gives every output symbol a class
      index inside the output table. */
  lemma BuiltVocabHasClassIndices(trainset: seq<Example>, opts: VocabOptions, prep: Prepared, enums: Enums)
    requires BuildVocab(trainset, opts, prep, enums).Success?
    ensures OutIndexValid(BuildVocab(trainset, opts, prep, enums).value)
  {
    VocabRoundTrip(trainset, opts, prep, enums, BuildVocab(trainset, opts, prep, enums).value);
  }

  /** The class index of a word that is a number mask token and an output
      symbol. */
  function MaskClass(w: string, ctx: LoaderContext): (r: Option<nat>)
    requires OutIndexValid(ctx.vocab)
    ensures r.Some? ==> r.value < |ctx.vocab.outIdx2Symbol|
  {
    if w in ctx.numMaskNumber && w in ctx.vocab.outIdx2Symbol then Some(ctx.vocab.outSymbol2Idx[w])
    else None
  }

  /** The last position in `words` of a mask token of class `c`. */
  function LastHit(words: seq<string>, c: nat, ctx: LoaderContext): (r: Option<nat>)
    requires OutIndexValid(ctx.vocab)
    ensures r.Some? ==> r.value < |words| && MaskClass(words[r.value], ctx) == Some(c)
    ensures r.Some? ==> forall j | r.value < j < |words| :: MaskClass(words[j], ctx) != Some(c)
    ensures r.None? ==> forall j | 0 <= j < |words| :: MaskClass(words[j], ctx) != Some(c)
    decreases |words|
  {
    if |words| == 0 then None
    else if MaskClass(words[|words| - 1], ctx) == Some(c) then Some(|words| - 1)
    else LastHit(words[..|words| - 1], c, ctx)
  }

  /** The inner loop over a sentence's words: for each mask token, write
      `value(j)` at its class index. */
  function MarkWords(row: seq<int>, words: seq<string>, value: nat -> int, ctx: LoaderContext): (r: seq<int>)
    requires OutIndexValid(ctx.vocab) && |row| == |ctx.vocab.outIdx2Symbol|
    ensures |r| == |row|
    decreases |words|
  {
    if |words| == 0 then row
    else
      var r := MarkWords(row, words[..|words| - 1], value, ctx);
      match MaskClass(words[|words| - 1], ctx)
      case None => r
      case Some(c) => r[c := value(|words| - 1)]
  }

  /** Each class entry ends up holding the value for the LAST word of that
      class, and is untouched when the sentence has none. */
  lemma {:induction false} MarkWordsSpec(row: seq<int>, words: seq<string>, value: nat -> int,
                                         ctx: LoaderContext, c: nat)
    requires OutIndexValid(ctx.vocab) && |row| == |ctx.vocab.outIdx2Symbol| && c < |row|
    ensures MarkWords(row, words, value, ctx)[c] ==
      match LastHit(words, c, ctx) case None => row[c] case Some(j) => value(j)
    decreases |words|
  {
    if |words| > 0 {
      MarkWordsSpec(row, words[..|words| - 1], value, ctx, c);
    }
  }

  /** A row of -1 entries, one per output symbol. */
  function NoPositions(ctx: LoaderContext): seq<int> {
    seq(|ctx.vocab.outIdx2Symbol|, _ => -1)
  }

  /** `span_num_pos` of one example: for each class, the index of the
      sentence in which a mask token of that class was last seen. */
  function SpanNumPos(sentences: seq<seq<string>>, ctx: LoaderContext): (r: seq<int>)
    requires OutIndexValid(ctx.vocab)
    ensures |r| == |ctx.vocab.outIdx2Symbol|
    decreases |sentences|
  {
    if |sentences| == 0 then NoPositions(ctx)
    else
      var i := |sentences| - 1;
      MarkWords(SpanNumPos(sentences[..i], ctx), sentences[i], _ => i, ctx)
  }

  /** The last sentence containing a mask token of class `c`. */
  function LastSpan(sentences: seq<seq<string>>, c: nat, ctx: LoaderContext): (r: Option<nat>)
    requires OutIndexValid(ctx.vocab)
    ensures r.Some? ==> r.value < |sentences| && LastHit(sentences[r.value], c, ctx).Some?
    ensures r.Some? ==> forall i | r.value < i < |sentences| :: LastHit(sentences[i], c, ctx).None?
    ensures r.None? ==> forall i | 0 <= i < |sentences| :: LastHit(sentences[i], c, ctx).None?
    decreases |sentences|
  {
    if |sentences| == 0 then None
    else if LastHit(sentences[|sentences| - 1], c, ctx).Some? then Some(|sentences| - 1)
    else LastSpan(sentences[..|sentences| - 1], c, ctx)
  }

  /** `span_num_pos[c]` is the index of the last sentence holding a mask
      token of class `c`, and -1 when there is none. */
  lemma {:induction false} SpanNumPosSpec(sentences: seq<seq<string>>, ctx: LoaderContext, c: nat)
    requires OutIndexValid(ctx.vocab) && c < |ctx.vocab.outIdx2Symbol|
    ensures SpanNumPos(sentences, ctx)[c] == match LastSpan(sentences, c, ctx) case None => -1 case Some(i) => i
    decreases |sentences|
  {
    if |sentences| > 0 {
      var i := |sentences| - 1;
      SpanNumPosSpec(sentences[..i], ctx, c);
      MarkWordsSpec(SpanNumPos(sentences[..i], ctx), sentences[i], _ => i, ctx, c);
    }
  }

  /** `word_num_poses[i]` for one sentence: for each class, the position of
      the last mask token of that class in the sentence. */
  function WordNumPos(sentence: seq<string>, ctx: LoaderContext): (r: seq<int>)
    requires OutIndexValid(ctx.vocab)
    ensures |r| == |ctx.vocab.outIdx2Symbol|
    ensures forall c | 0 <= c < |r| ::
      r[c] == match LastHit(sentence, c, ctx) case None => -1 case Some(j) => j
  {
    var r := MarkWords(NoPositions(ctx), sentence, j => j, ctx);
    forall c | 0 <= c < |r|
      ensures r[c] == match LastHit(sentence, c, ctx) case None => -1 case Some(j) => j
    {
      MarkWordsSpec(NoPositions(ctx), sentence, j => j, ctx, c);
    }
    r
  }

  /** The dependency parse of sentence `s`, or None when absent. */
  function TreeAt(ex: Example, s: nat): Option<Payload> {
    match ex.deprelTree
    case None => None
    case Some(trees) => if s < |trees| then Some(trees[s]) else None
  }

  /** The span tables, sentence-major: entry `[s][b]` is about sentence `s`
      of example `b`. */
  datatype Spans = Spans(
    spans: seq<seq<seq<int>>>,
    spansLen: seq<seq<nat>>,
    spanNums: seq<nat>,
    trees: seq<seq<Option<Payload>>>,
    spanNumPos: seq<seq<int>>,
    wordNumPoses: seq<seq<seq<int>>>)

  /** `load_batch_spans`. Every example contributes one entry per sentence
      slot up to the batch's largest sentence count; an example with fewer
      sentences is padded with an empty span of length 0 and an all -1
      position row. `max` of the sentence counts needs a non-empty batch. */
  function LoadBatchSpans(batch: seq<Example>, ctx: LoaderContext): (r: Spans)
    requires |batch| > 0 && OutIndexValid(ctx.vocab)
    ensures |r.spanNums| == |batch|
    ensures forall b | 0 <= b < |batch| :: r.spanNums[b] == |batch[b].splitSentences|
    ensures |r.spans| == |r.spansLen| == |r.trees| == |r.wordNumPoses| == Max(r.spanNums)
    ensures |r.spanNumPos| == |batch|
    ensures forall s | 0 <= s < |r.spans| ::
      |r.spans[s]| == |r.spansLen[s]| == |r.trees[s]| == |r.wordNumPoses[s]| == |batch|
    ensures forall s, b | 0 <= s < |r.spans| && 0 <= b < |batch| && s >= r.spanNums[b] ::
      r.spans[s][b] == [] && r.spansLen[s][b] == 0 && r.wordNumPoses[s][b] == NoPositions(ctx)
    ensures forall s, b | 0 <= s < |r.spans| && 0 <= b < |batch| && s < r.spanNums[b] ::
      && r.spans[s][b] == ctx.idx.word2idx(batch[b].splitSentences[s])
      && r.spansLen[s][b] == |r.spans[s][b]|
      && r.wordNumPoses[s][b] == WordNumPos(batch[b].splitSentences[s], ctx)
    ensures forall b | 0 <= b < |batch| :: r.spanNumPos[b] == SpanNumPos(batch[b].splitSentences, ctx)
  {
    var nums := SentenceCounts(batch);
    var maxSpans: nat := Max(nums);
    var r := Spans(
      SpanIndices(batch, ctx, maxSpans),
      SpanLengths(batch, ctx, maxSpans),
      nums,
      SpanTrees(batch, maxSpans),
      SpanNumPoses(batch, ctx),
      WordNumPoses(batch, ctx, maxSpans));
    SpansLayout(batch, ctx, r);
    r
  }

  /** The tables built slot by slot line up with the examples: real
      sentences where an example has them, padding past its last one. */
  lemma SpansLayout(batch: seq<Example>, ctx: LoaderContext, r: Spans)
    requires |batch| > 0 && OutIndexValid(ctx.vocab)
    requires r.spanNums == SentenceCounts(batch)
    requires r.spans == SpanIndices(batch, ctx, Max(r.spanNums))
    requires r.spansLen == SpanLengths(batch, ctx, Max(r.spanNums))
    requires r.trees == SpanTrees(batch, Max(r.spanNums))
    requires r.spanNumPos == SpanNumPoses(batch, ctx)
    requires r.wordNumPoses == WordNumPoses(batch, ctx, Max(r.spanNums))
    ensures |r.spanNums| == |batch|
    ensures forall b | 0 <= b < |batch| :: r.spanNums[b] == |batch[b].splitSentences|
    ensures |r.spans| == |r.spansLen| == |r.trees| == |r.wordNumPoses| == Max(r.spanNums)
    ensures |r.spanNumPos| == |batch|
    ensures forall s | 0 <= s < |r.spans| ::
      |r.spans[s]| == |r.spansLen[s]| == |r.trees[s]| == |r.wordNumPoses[s]| == |batch|
    ensures forall s, b | 0 <= s < |r.spans| && 0 <= b < |batch| && s >= r.spanNums[b] ::
      r.spans[s][b] == [] && r.spansLen[s][b] == 0 && r.wordNumPoses[s][b] == NoPositions(ctx)
    ensures forall s, b | 0 <= s < |r.spans| && 0 <= b < |batch| && s < r.spanNums[b] ::
      && r.spans[s][b] == ctx.idx.word2idx(batch[b].splitSentences[s])
      && r.spansLen[s][b] == |r.spans[s][b]|
      && r.wordNumPoses[s][b] == WordNumPos(batch[b].splitSentences[s], ctx)
    ensures forall b | 0 <= b < |batch| :: r.spanNumPos[b] == SpanNumPos(batch[b].splitSentences, ctx)
  {
  }

  /** What the `load_data` generator yields: `load_batch` of each slice, in
      order; the first batch that raises ends the iteration with its error. */
  function LoadBatches(slices: seq<seq<Example>>, ctx: LoaderContext): (r: Result<seq<Batch>>)
    requires ctx.opts.withSpans ==> OutIndexValid(ctx.vocab)
    ensures r.Success? <==> forall k | 0 <= k < |slices| :: LoadBatch(slices[k], ctx).Success?
    ensures r.Success? ==>
      && |r.value| == |slices|
      && forall k | 0 <= k < |slices| :: LoadBatch(slices[k], ctx) == Success(r.value[k])
    ensures r.Failure? ==> exists k | 0 <= k < |slices| ::
      && LoadBatch(slices[k], ctx) == Failure(r.error)
      && forall j | 0 <= j < k :: LoadBatch(slices[j], ctx).Success?
  {
    MapResults(slices, slice requires ctx.opts.withSpans ==> OutIndexValid(ctx.vocab) => LoadBatch(slice, ctx))
  }

  /** The entries of each batch. */
  function BatchEntries(batches: seq<Batch>): (r: seq<seq<Entry>>)
    ensures |r| == |batches|
    ensures forall k | 0 <= k < |batches| :: r[k] == batches[k].entries
  {
    seq(|batches|, k requires 0 <= k < |batches| => batches[k].entries)
  }

  /** Framing a concatenation frames each part. */
  lemma FrameBatchConcat(a: seq<Example>, b: seq<Example>, ctx: LoaderContext)
    requires LookupsDefined(ctx)
    ensures FrameBatch(a + b, ctx) == FrameBatch(a, ctx) + FrameBatch(b, ctx)
  {
    var l := FrameBatch(a + b, ctx);
    var rr := FrameBatch(a, ctx) + FrameBatch(b, ctx);
    assert |l| == |rr|;
    forall k | 0 <= k < |l|
      ensures l[k] == rr[k]
    {
      if k < |a| {
        assert (a + b)[k] == a[k] && rr[k] == FrameBatch(a, ctx)[k];
      } else {
        assert (a + b)[k] == b[k - |a|] && rr[k] == FrameBatch(b, ctx)[k - |a|];
      }
    }
    assert l == rr;
  }

  /** The batches' entries, concatenated, are the framed examples of the
      sliced data, in order. */
  lemma {:induction false} BatchesFrameData(slices: seq<seq<Example>>, batches: seq<Batch>, ctx: LoaderContext)
    requires LookupsDefined(ctx) && (ctx.opts.withSpans ==> OutIndexValid(ctx.vocab))
    requires |batches| == |slices|
    requires forall k | 0 <= k < |slices| :: LoadBatch(slices[k], ctx) == Success(batches[k])
    ensures Flatten(BatchEntries(batches)) == FrameBatch(Flatten(slices), ctx)
    decreases |slices|
  {
    if |slices| > 0 {
      var n := |slices| - 1;
      BatchesFrameData(slices[..n], batches[..n], ctx);
      assert BatchEntries(batches)[..n] == BatchEntries(batches[..n]);
      FrameBatchConcat(Flatten(slices[..n]), slices[n], ctx);
      assert batches[n].entries == FrameBatch(slices[n], ctx);
    }
  }

  /** `load_data` followed by `load_batch` on each slice. An unknown split
      raises `ValueError` and a zero batch size `ZeroDivisionError`; a
      negative size yields nothing; otherwise the batches fail exactly when
      there is data and a `load_batch` lookup is missing, and on success
      there are `ceil(n / size)` batches whose entries, concatenated, are
      every example of the split framed in order. */
  method LoadDataBatches(split: string, splits: Splits, trainBatchSize: int, testBatchSize: int,
                         ctx: LoaderContext)
    returns (r: Result<seq<Batch>>)
    requires ctx.opts.withSpans ==> OutIndexValid(ctx.vocab)
    ensures split !in ["train", "valid", "test"] ==> r == Failure(ValueError(split))
    ensures split in ["train", "valid", "test"] ==>
      var data := SplitChoice(split, splits, trainBatchSize, testBatchSize).value.0;
      var size := SplitChoice(split, splits, trainBatchSize, testBatchSize).value.1;
      && (size == 0 ==> r == Failure(ZeroDivisionError))
      && (size < 0 ==> r == Success([]))
      && (size > 0 ==> (r.Success? <==> |data| == 0 || LookupsDefined(ctx)))
      && (size > 0 && r.Success? ==> |r.value| == CeilDiv(|data|, size))
      && (size > 0 && r.Success? && |data| > 0 ==>
            LookupsDefined(ctx) && Flatten(BatchEntries(r.value)) == FrameBatch(data, ctx))
  {
    var sliced := LoadData(split, splits, trainBatchSize, testBatchSize);
    if sliced.Failure? {
      return Failure(sliced.error);
    }
    r := LoadBatches(sliced.value, ctx);
    if split in ["train", "valid", "test"] {
      var size := SplitChoice(split, splits, trainBatchSize, testBatchSize).value.1;
      if size > 0 && r.Success? && |sliced.value| > 0 {
        BatchesFrameData(sliced.value, r.value, ctx);
      }
    }
  }

  /** The number-position row of every example. */
  function SpanNumPoses(batch: seq<Example>, ctx: LoaderContext): (r: seq<seq<int>>)
    requires OutIndexValid(ctx.vocab)
    ensures |r| == |batch|
    ensures forall b | 0 <= b < |batch| :: r[b] == SpanNumPos(batch[b].splitSentences, ctx)
  {
    seq(|batch|, b requires 0 <= b < |batch| => SpanNumPos(batch[b].splitSentences, ctx))
  }

  /** The number of sentences of each example. */
  function SentenceCounts(batch: seq<Example>): (r: seq<nat>)
    ensures |r| == |batch|
    ensures forall b | 0 <= b < |batch| :: r[b] == |batch[b].splitSentences|
  {
    seq(|batch|, b requires 0 <= b < |batch| => |batch[b].splitSentences|)
  }

  /** The word indices of sentence `s` of every example, [] past its last
      sentence. */
  function SpanIndices(batch: seq<Example>, ctx: LoaderContext, slots: nat): (r: seq<seq<seq<int>>>)
    ensures |r| == slots
    ensures forall s | 0 <= s < slots :: |r[s]| == |batch|
    ensures forall s, b | 0 <= s < slots && 0 <= b < |batch| ::
      r[s][b] == if s < |batch[b].splitSentences| then ctx.idx.word2idx(batch[b].splitSentences[s]) else []
  {
    seq(slots, s requires 0 <= s < slots =>
      seq(|batch|, b requires 0 <= b < |batch| =>
        if s < |batch[b].splitSentences| then ctx.idx.word2idx(batch[b].splitSentences[s]) else []))
  }

  /** The lengths of the entries of `SpanIndices`. */
  function SpanLengths(batch: seq<Example>, ctx: LoaderContext, slots: nat): (r: seq<seq<nat>>)
    ensures |r| == slots
    ensures forall s | 0 <= s < slots :: |r[s]| == |batch|
    ensures forall s, b | 0 <= s < slots && 0 <= b < |batch| ::
      r[s][b] == if s < |batch[b].splitSentences| then |ctx.idx.word2idx(batch[b].splitSentences[s])| else 0
  {
    seq(slots, s requires 0 <= s < slots =>
      seq(|batch|, b requires 0 <= b < |batch| =>
        if s < |batch[b].splitSentences| then |ctx.idx.word2idx(batch[b].splitSentences[s])| else 0))
  }

  /** The dependency parse of sentence `s` of every example. */
  function SpanTrees(batch: seq<Example>, slots: nat): (r: seq<seq<Option<Payload>>>)
    ensures |r| == slots
    ensures forall s | 0 <= s < slots :: |r[s]| == |batch|
    ensures forall s, b | 0 <= s < slots && 0 <= b < |batch| :: r[s][b] == TreeAt(batch[b], s)
  {
    seq(slots, s requires 0 <= s < slots =>
      seq(|batch|, b requires 0 <= b < |batch| => TreeAt(batch[b], s)))
  }

  /** The position rows of sentence `s` of every example, all -1 past its
      last sentence. */
  function WordNumPoses(batch: seq<Example>, ctx: LoaderContext, slots: nat): (r: seq<seq<seq<int>>>)
    requires OutIndexValid(ctx.vocab)
    ensures |r| == slots
    ensures forall s | 0 <= s < slots :: |r[s]| == |batch|
    ensures forall s, b | 0 <= s < slots && 0 <= b < |batch| ::
      r[s][b] == if s < |batch[b].splitSentences| then WordNumPos(batch[b].splitSentences[s], ctx)
                 else NoPositions(ctx)
  {
    seq(slots, s requires 0 <= s < slots =>
      seq(|batch|, b requires 0 <= b < |batch| =>
        if s < |batch[b].splitSentences| then WordNumPos(batch[b].splitSentences[s], ctx)
        else NoPositions(ctx)))
  }

  // ---------------------------------------------------------------------
  // load_batch
  // ---------------------------------------------------------------------

  /** What `load_batch` records for one example. The recorded question and
      equation lengths are the lengths of `question` and `equation`. */
  datatype Entry = Entry(
    question: seq<int>,
    equation: seq<int>,
    template: seq<int>,
    numList: seq<string>,
    numPos: seq<int>,
    numSize: nat,
    id: string,
    ans: string,
    quesSource: string,
    equSource: string,
    tempSource: string,
    quesSource1: string,
    groupNums: seq<seq<int>>,
    infixEquation: seq<string>)

  /** The per-example part of `load_batch`. */
  function FrameExample(ex: Example, ctx: LoaderContext): (r: Entry)
    requires LookupsDefined(ctx)
    ensures r.id == ex.id && r.ans == ex.ans && r.numList == ex.numberList
    ensures r.quesSource1 == ex.quesSource1 && r.infixEquation == ex.infixEquation
    ensures r.numSize == |ex.numberPosition|
    ensures |ex.question| > 0 && (forall w | w in ex.question :: ' ' !in w) ==>
      Split(r.quesSource, ' ') == ex.question
    ensures ctx.opts.equationFix == MultiWayTree ==> r.equSource == " " && r.tempSource == " "
    ensures ctx.opts.equationFix != MultiWayTree && |ex.equation| > 0 && (forall w | w in ex.equation :: ' ' !in w) ==>
      Split(r.equSource, ' ') == ex.equation
  {
    var tree := ctx.opts.equationFix == MultiWayTree;
    var numPos := ShiftPositions(ex.numberPosition, ctx.opts.addSos);
    Entry(
      QuestionIndices(ex, ctx),
      EquationIndices(ex, ctx),
      TemplateIndices(ex, ctx),
      ex.numberList,
      numPos,
      |numPos|,
      ex.id,
      ex.ans,
      JoinWords(ex.question),
      if tree then " " else JoinWords(ex.equation),
      if tree then " " else JoinWords(ex.template),
      ex.quesSource1,
      ShiftedGroupNums(ex, ctx.opts.addSos),
      ex.infixEquation)
  }

  /** The list-level content of one batch: the examples' entries in batch
      order, the number mask over the whole batch, and the span tables when
      asked for. */
  datatype Batch = Batch(entries: seq<Entry>, numMask: seq<seq<int>>, spans: Option<Spans>)

  /** `load_batch`, before padding and tensor conversion. Every example
      performs the same dictionary lookups, so a missing key raises
      `KeyError` at the first example; an empty batch performs none and
      raises `ValueError` in the number mask's `max`. Otherwise the number
      mask is built from the entries' number sizes, and the span tables are
      present exactly when the model asks for them. */
  function LoadBatch(batch: seq<Example>, ctx: LoaderContext): (r: Result<Batch>)
    requires ctx.opts.withSpans ==> OutIndexValid(ctx.vocab)
    ensures r.Success? <==> |batch| > 0 && LookupsDefined(ctx)
    ensures |batch| == 0 ==> r.Failure? && r.error.ValueError?
    ensures |batch| > 0 && !LookupsDefined(ctx) ==>
      r == Failure(KeyError(if ctx.opts.addSos && SosToken !in ctx.vocab.inWord2Idx then SosToken else EosToken))
    ensures r.Success? ==>
      && |r.value.entries| == |r.value.numMask| == |batch|
      && (forall b | 0 <= b < |batch| ::
            && |r.value.numMask[b]| == Max(NumSizes(r.value.entries)) + |ctx.generateList|
            && forall j | 0 <= j < |r.value.numMask[b]| ::
                 r.value.numMask[b][j] == if j < r.value.entries[b].numSize + |ctx.generateList| then 0 else 1)
      && (r.value.spans.Some? <==> ctx.opts.withSpans)
  {
    if |batch| == 0 then Failure(NumMask([], |ctx.generateList|).error)
    else
      var checked :- FrameLookups(ctx);
      var entries := FrameBatch(batch, ctx);
      Success(Batch(entries, NumMask(NumSizes(entries), |ctx.generateList|).value, BatchSpans(batch, ctx)))
  }

  /** The span tables, built only when the model asks for them. */
  function BatchSpans(batch: seq<Example>, ctx: LoaderContext): (r: Option<Spans>)
    requires |batch| > 0
    requires ctx.opts.withSpans ==> OutIndexValid(ctx.vocab)
    ensures r.Some? <==> ctx.opts.withSpans
    ensures r.Some? ==> r.value == LoadBatchSpans(batch, ctx)
  {
    if ctx.opts.withSpans then Some(LoadBatchSpans(batch, ctx)) else None
  }

  /** Every example of a batch framed, in order. */
  function FrameBatch(batch: seq<Example>, ctx: LoaderContext): (r: seq<Entry>)
    requires LookupsDefined(ctx)
    ensures |r| == |batch|
    ensures forall b | 0 <= b < |batch| :: r[b] == FrameExample(batch[b], ctx)
  {
    seq(|batch|, b requires 0 <= b < |batch| => FrameExample(batch[b], ctx))
  }

  /** The `num size` column of a batch. */
  function NumSizes(entries: seq<Entry>): (r: seq<nat>)
    ensures |r| == |entries|
    ensures forall b | 0 <= b < |entries| :: r[b] == entries[b].numSize
  {
    seq(|entries|, b requires 0 <= b < |entries| => entries[b].numSize)
  }

  /** The entries follow the batch order and keep each example's identity,
      answer and number list. */
  lemma LoadBatchKeepsExamples(batch: seq<Example>, ctx: LoaderContext, b: nat)
    requires ctx.opts.withSpans ==> OutIndexValid(ctx.vocab)
    requires LoadBatch(batch, ctx).Success? && b < |batch|
    ensures var e := LoadBatch(batch, ctx).value.entries[b];
      && e == FrameExample(batch[b], ctx)
      && e.id == batch[b].id && e.ans == batch[b].ans
      && e.numList == batch[b].numberList
      && e.numSize == |batch[b].numberPosition|
  {
  }

  /** Question framing: an optional SOS, then exactly the word indices, then
      an optional EOS. */
  lemma QuestionFraming(ex: Example, ctx: LoaderContext)
    requires LookupsDefined(ctx)
    ensures var q := FrameExample(ex, ctx).question;
      var words := ctx.idx.word2idx(ex.question);
      var sos := if ctx.opts.addSos then 1 else 0;
      var eos := if ctx.opts.addEos then 1 else 0;
      && |q| == |words| + sos + eos
      && q[sos..sos + |words|] == words
      && (ctx.opts.addSos ==> q[0] == ctx.vocab.inWord2Idx[SosToken])
      && (ctx.opts.addEos ==> q[|q| - 1] == ctx.vocab.inWord2Idx[EosToken])
  {
  }

  /** Equations and templates get exactly one EOS outside tree mode, from
      the input vocabulary when it is shared and from their own otherwise;
      in tree mode they are the bare symbol indices. */
  lemma EquationFraming(ex: Example, ctx: LoaderContext)
    requires LookupsDefined(ctx)
    ensures var e := FrameExample(ex, ctx);
      var equ := ctx.idx.equSymbol2idx(ex.equation);
      var temp := ctx.idx.tempSymbol2idx(ex.template);
      && (TreeMode(ctx.opts) ==> e.equation == equ && e.template == temp)
      && (!TreeMode(ctx.opts) ==>
            && |e.equation| == |equ| + 1 && e.equation[..|equ|] == equ
            && |e.template| == |temp| + 1 && e.template[..|temp|] == temp
            && e.equation[|equ|] == (if ctx.opts.shareVocab then ctx.vocab.inWord2Idx[EosToken]
                                     else ctx.vocab.outSymbol2Idx[EosToken])
            && e.template[|temp|] == (if ctx.opts.shareVocab then ctx.vocab.inWord2Idx[EosToken]
                                      else ctx.tempSymbol2Idx[EosToken]))
  {
  }

  /** Number and group-number positions move by one exactly when SOS is
      prepended, so they still point at the same word: whenever a recorded
      position indexes the question's word indices, the shifted position
      indexes the same value in the framed question. A missing
      `group nums` entry becomes `[]`. */
  lemma PositionsFollowSos(ex: Example, ctx: LoaderContext)
    requires LookupsDefined(ctx)
    ensures var e := FrameExample(ex, ctx);
      var shift := if ctx.opts.addSos then 1 else 0;
      var words := ctx.idx.word2idx(ex.question);
      && |e.numPos| == |ex.numberPosition|
      && (forall k | 0 <= k < |ex.numberPosition| :: e.numPos[k] == ex.numberPosition[k] + shift)
      && (forall k | 0 <= k < |ex.numberPosition| && 0 <= ex.numberPosition[k] < |words| ::
            e.question[e.numPos[k]] == words[ex.numberPosition[k]])
      && (ex.groupNums.None? ==> e.groupNums == [])
      && (ex.groupNums.Some? ==>
            && |e.groupNums| == |ex.groupNums.value|
            && (forall g | 0 <= g < |ex.groupNums.value| :: |e.groupNums[g]| == |ex.groupNums.value[g]|)
            && forall g, k | 0 <= g < |ex.groupNums.value| && 0 <= k < |ex.groupNums.value[g]| ::
                 e.groupNums[g][k] == ex.groupNums.value[g][k] + shift)
  {
    var e := FrameExample(ex, ctx);
    var words := ctx.idx.word2idx(ex.question);
    var pre: seq<int> := if ctx.opts.addSos then [ctx.vocab.inWord2Idx[SosToken] as int] else [];
    var post: seq<int> := if ctx.opts.addEos then [ctx.vocab.inWord2Idx[EosToken] as int] else [];
    assert e.question == pre + words + post;
    if ex.groupNums.Some? {
      var groups := ex.groupNums.value;
      assert e.groupNums == seq(|groups|, g requires 0 <= g < |groups| => ShiftPositions(groups[g], ctx.opts.addSos));
      forall g | 0 <= g < |groups|
        ensures e.groupNums[g] == ShiftPositions(groups[g], ctx.opts.addSos)
      {
      }
    }
  }
}
