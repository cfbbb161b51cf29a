/** The vocabulary side of the multi-equation dataset
    (mwptoolkit/data/dataset/multi_equation_dataset.py): the equation-notation
    dispatch and `generate_list` assembly of `_preprocess`, the input word
    list of `_build_vocab`, and the output symbol tables of `_build_symbol`
    and `_build_symbol_for_tree`, with the index maps derived from them.

    The number-masking transform and the infix-to-prefix/postfix converters
    are not part of this model: their outputs (`generate_list`, `copy_nums`,
    `unk_symbol` and the masked examples) are inputs here. */
module MultiEquationDataset {
  import opened Outcomes
  import opened Seqs

  /** Special tokens. The data loader spells SOS and EOS literally as
      `"<SOS>"` and `"<EOS>"`; PAD and UNK follow the same convention. */
  const PadToken: string := "<PAD>"
  const UnkToken: string := "<UNK>"
  const SosToken: string := "<SOS>"
  const EosToken: string := "<EOS>"

  /** A question word containing this marker is a number placeholder and is
      kept in the input vocabulary whatever its frequency. */
  const NumMarker: string := "NUM"

  /** The enumeration contents the builder reads: `SPECIAL_TOKENS`,
      `Operators.Multi`, `NumMask.number` and `NumMask.alphabet`. Their
      values are not part of this model, so they are parameters. */
  datatype Enums = Enums(
    specialTokens: seq<string>,
    operators: seq<string>,
    numMaskNumber: seq<string>,
    numMaskAlphabet: seq<string>)

  /** The `mask_symbol` option; `OtherMask` is any unsupported value. */
  datatype MaskSymbol = NUM | Alphabet | Number | OtherMask(name: string)

  /** The `equation_fix` option; `OtherFix` is any other value. */
  datatype FixType = Prefix | Postfix | Nonfix | MultiWayTree | OtherFix(name: string)

  /** The converter `_preprocess` hands to `fix_process`. */
  datatype Notation = ToPrefix | ToPostfix | Unchanged

  /** An uninterpreted payload (a dependency parse). */
  datatype Payload = Payload(raw: string)

  /** One masked example, with the fields the loader reads. The optional
      `group nums` and `deprel tree` entries are explicit options. */
  datatype Example = Example(
    question: seq<string>,
    equation: seq<string>,
    template: seq<string>,
    numberList: seq<string>,
    numberPosition: seq<int>,
    groupNums: Option<seq<seq<int>>>,
    id: string,
    ans: string,
    quesSource1: string,
    infixEquation: seq<string>,
    splitSentences: seq<seq<string>>,
    deprelTree: Option<seq<Payload>>)

  /** What the number-masking transform returns besides the examples. */
  datatype Transfer = Transfer(generateList: seq<string>, copyNums: nat, unkSymbol: seq<string>)

  /** The dataset attributes `_preprocess` sets. */
  datatype Prepared = Prepared(
    notation: Notation,
    generateList: seq<string>,
    copyNums: nat,
    operatorNums: nat,
    operatorList: seq<string>,
    unkSymbol: seq<string>)

  // ---------------------------------------------------------------------
  // _preprocess
  // ---------------------------------------------------------------------

  /** The equation-notation dispatch: prefix, postfix and non-fix are the
      only accepted values; anything else (MultiWayTree included) raises
      `NotImplementedError`. */
  function SelectNotation(fix: FixType): (r: Result<Notation>)
    ensures r.Success? <==> fix.Prefix? || fix.Postfix? || fix.Nonfix?
    ensures r.Failure? ==> r.error.NotImplementedError?
  {
    match fix
    case Prefix => Success(ToPrefix)
    case Postfix => Success(ToPostfix)
    case Nonfix => Success(Unchanged)
    case MultiWayTree => Failure(NotImplementedError("MultiWayTree"))
    case OtherFix(name) => Failure(NotImplementedError(name))
  }

  /** The attributes `_preprocess` records after the transform: the stored
      `generate_list` puts the unknown-variable symbols first. */
  function Preprocess(fix: FixType, t: Transfer, enums: Enums): (r: Result<Prepared>)
    ensures r.Success? <==> fix.Prefix? || fix.Postfix? || fix.Nonfix?
    ensures r.Success? ==>
      && |r.value.generateList| == |t.unkSymbol| + |t.generateList|
      && r.value.generateList[..|t.unkSymbol|] == t.unkSymbol
      && r.value.generateList[|t.unkSymbol|..] == t.generateList
      && r.value.copyNums == t.copyNums
      && r.value.operatorNums == |enums.operators|
      && r.value.operatorList == enums.operators
      && r.value.unkSymbol == t.unkSymbol
  {
    var notation :- SelectNotation(fix);
    Success(Prepared(notation, t.unkSymbol + t.generateList, t.copyNums,
                     |enums.operators|, enums.operators, t.unkSymbol))
  }

  // ---------------------------------------------------------------------
  // _build_vocab: the input word list
  // ---------------------------------------------------------------------

  /** All question words of the training split, in reading order. */
  function QuestionWords(trainset: seq<Example>): seq<string> {
    Flatten(seq(|trainset|, i requires 0 <= i < |trainset| => trainset[i].question))
  }

  /** All equation tokens of the training split, in reading order. */
  function EquationTokens(trainset: seq<Example>): seq<string> {
    Flatten(seq(|trainset|, i requires 0 <= i < |trainset| => trainset[i].equation))
  }

  /** The `words_count` dictionary: the number of occurrences of each word. */
  function WordCounts(words: seq<string>): (counts: map<string, nat>)
    ensures counts.Keys == Elements(words)
    ensures forall w | w in counts :: counts[w] == multiset(words)[w]
    decreases |words|
  {
    if |words| == 0 then map[]
    else
      var p := words[..|words| - 1];
      var w := words[|words| - 1];
      var c := WordCounts(p);
      assert words == p + [w];
      if w in c then c[w := c[w] + 1] else c[w := 1]
  }

  /** The keep test applied to each counted word. */
  predicate KeepWord(counts: map<string, nat>, minWordKeep: int, w: string) {
    (w in counts && counts[w] > minWordKeep) || HasSubstring(w, NumMarker)
  }

  /** The input word list before output symbols are shared into it. */
  function InputWords(trainset: seq<Example>, minWordKeep: int, enums: Enums): (r: seq<string>)
    ensures |enums.specialTokens| <= |r| && r[..|enums.specialTokens|] == enums.specialTokens
    ensures var words := QuestionWords(trainset);
      && (forall w | w in r[|enums.specialTokens|..] :: w in words && KeepWord(WordCounts(words), minWordKeep, w))
      && (forall w | w in words && KeepWord(WordCounts(words), minWordKeep, w) :: w in r)
  {
    var words := QuestionWords(trainset);
    var counts := WordCounts(words);
    enums.specialTokens + Filter(FirstSeen(words), w => KeepWord(counts, minWordKeep, w))
  }

  /** The input word list starts with the special tokens; the rest are the
      distinct training-question words, in first-seen order, whose count is
      strictly above `min_word_keep` or which contain "NUM". */
  lemma InputWordsSpec(trainset: seq<Example>, minWordKeep: int, enums: Enums)
    ensures var r := InputWords(trainset, minWordKeep, enums);
      && |r| >= |enums.specialTokens|
      && r[..|enums.specialTokens|] == enums.specialTokens
      && NoDup(r[|enums.specialTokens|..])
      && InFirstSeenOrder(r[|enums.specialTokens|..], QuestionWords(trainset))
    ensures var r := InputWords(trainset, minWordKeep, enums);
      var words := QuestionWords(trainset);
      forall w ::
        w in r[|enums.specialTokens|..] <==>
          w in words && (multiset(words)[w] > minWordKeep || HasSubstring(w, NumMarker))
  {
    var words := QuestionWords(trainset);
    var counts := WordCounts(words);
    var p := w => KeepWord(counts, minWordKeep, w);
    var kept := Filter(FirstSeen(words), p);
    var r := InputWords(trainset, minWordKeep, enums);
    assert r[|enums.specialTokens|..] == kept;
    FilterNoDup(FirstSeen(words), p);
    FilterKeepsOrder(FirstSeen(words), words, p);
  }

  /** With a shared vocabulary, each output symbol not yet in the input list
      is appended to it, once. */
  function AppendMissing(vocab: seq<string>, symbols: seq<string>): (r: seq<string>)
    ensures |r| >= |vocab| && r[..|vocab|] == vocab
    ensures forall s | s in symbols :: s in r
    ensures forall x | x in r[|vocab|..] :: x in symbols && x !in vocab
    ensures NoDup(r[|vocab|..])
    ensures NoDup(vocab) ==> NoDup(r)
    decreases |symbols|
  {
    if |symbols| == 0 then vocab
    else
      var p := symbols[..|symbols| - 1];
      var s := symbols[|symbols| - 1];
      var r := AppendMissing(vocab, p);
      assert symbols == p + [s];
      if s in r then r
      else
        assert (r + [s])[|vocab|..] == r[|vocab|..] + [s];
        r + [s]
  }

  // ---------------------------------------------------------------------
  // _build_symbol / _build_symbol_for_tree: the output symbol table
  // ---------------------------------------------------------------------

  /** An output symbol list with its `num_start` offset. */
  datatype OutTable = OutTable(symbols: seq<string>, numStart: nat)

  /** The mask alphabet a `mask_symbol` value selects. */
  function MaskAlphabet(mask: MaskSymbol, enums: Enums): (r: Result<seq<string>>)
    ensures r.Failure? <==> mask.OtherMask?
    ensures r.Failure? ==> r.error == NotImplementedError(mask.name)
    ensures (mask.NUM? || mask.Number?) ==> r == Success(enums.numMaskNumber)
    ensures mask.Alphabet? ==> r == Success(enums.numMaskAlphabet)
  {
    match mask
    case NUM => Success(enums.numMaskNumber)
    case Alphabet => Success(enums.numMaskAlphabet)
    case Number => Success(enums.numMaskNumber)
    case OtherMask(name) => Failure(NotImplementedError(name))
  }

  /** The `IndexError` raised when the alphabet `mask` selects holds only
      `available` tokens: the number alphabets' message formats the alphabet
      size with the generate list, the letter alphabet's formats
      `copy_nums`. */
  function ShortageError(mask: MaskSymbol, available: nat, generateList: seq<string>, copyNums: nat): Error {
    if mask.Alphabet? then AlphabetShort(copyNums) else NumbersShort(available, generateList)
  }

  /** `[mask_list[i] for i in range(copy_nums)]`: the first `copy_nums`
      tokens of the alphabet, or an `IndexError` once `i` reaches the end of
      it. */
  function MaskBlock(mask: MaskSymbol, copyNums: nat, generateList: seq<string>, enums: Enums)
    : (r: Result<seq<string>>)
    ensures r.Success? <==> MaskAlphabet(mask, enums).Success? && copyNums <= |MaskAlphabet(mask, enums).value|
    ensures r.Success? ==> r.value == MaskAlphabet(mask, enums).value[..copyNums]
    ensures MaskAlphabet(mask, enums).Failure? ==> r == Failure(MaskAlphabet(mask, enums).error)
    ensures MaskAlphabet(mask, enums).Success? && copyNums > |MaskAlphabet(mask, enums).value| ==>
      r == Failure(ShortageError(mask, |MaskAlphabet(mask, enums).value|, generateList, copyNums))
  {
    var alphabet :- MaskAlphabet(mask, enums);
    if copyNums > |alphabet| then Failure(ShortageError(mask, |alphabet|, generateList, copyNums))
    else Success(alphabet[..copyNums])
  }

  /** The leading part of the non-tree table. */
  function SymbolPrefix(shareVocab: bool, enums: Enums): seq<string> {
    if shareVocab then [PadToken, EosToken] + enums.operators
    else [PadToken, SosToken, EosToken] + enums.operators
  }

  predicate IsDigit(c: char) { '0' <= c <= '9' }
  predicate IsAlpha(c: char) { 'a' <= c <= 'z' || 'A' <= c <= 'Z' }

  /** An equation token that behaves like an operator: its first character
      is neither a letter nor a digit. Such tokens go before the mask block. */
  predicate OperatorLike(w: string) {
    |w| > 0 && !IsAlpha(w[0]) && !IsDigit(w[0])
  }

  /** An equation token that behaves like a constant name: it starts with a
      letter. Such tokens are appended. */
  predicate LetterLike(w: string) {
    |w| > 0 && IsAlpha(w[0])
  }

  /** Inserting an absent element keeps a list duplicate-free. */
  lemma NoDupInsert(s: seq<string>, k: nat, w: string)
    requires k <= |s| && NoDup(s) && w !in s
    ensures NoDup(s[..k] + [w] + s[k..])
  {
    var t := s[..k] + [w] + s[k..];
    forall i, j | 0 <= i < j < |t| ensures t[i] != t[j] {
      if i < k && j > k {
        assert t[j] == s[j - 1];
      } else if i > k {
        assert t[i] == s[i - 1] && t[j] == s[j - 1];
      } else if i == k {
        assert t[j] == s[j - 1];
      } else if j == k {
        assert t[i] == s[i];
      }
    }
  }

  /** One step of the training-equation scan at lines 171-180. */
  function AbsorbToken(t: OutTable, w: string): (r: Result<OutTable>)
    requires t.numStart <= |t.symbols|
    ensures r.Failure? <==> w !in t.symbols && |w| == 0
    ensures r.Failure? ==> r.error == EmptyToken
    ensures r.Success? ==> t.numStart <= r.value.numStart <= |r.value.symbols|
    ensures r.Success? ==> r.value.symbols[..t.numStart] == t.symbols[..t.numStart]
    ensures r.Success? ==> forall s | s in t.symbols :: s in r.value.symbols
    ensures r.Success? ==> forall s | s in r.value.symbols :: s in t.symbols || s == w
  {
    if w in t.symbols then Success(t)
    else if |w| == 0 then Failure(EmptyToken)
    else if IsDigit(w[0]) then Success(t)
    else if !IsAlpha(w[0]) then
      Success(OutTable(t.symbols[..t.numStart] + [w] + t.symbols[t.numStart..], t.numStart + 1))
    else Success(OutTable(t.symbols + [w], t.numStart))
  }

  /** The scan over all training-equation tokens, in order. */
  function Absorb(t: OutTable, ws: seq<string>): (r: Result<OutTable>)
    requires t.numStart <= |t.symbols|
    ensures r.Failure? ==> r.error == EmptyToken
    ensures r.Success? ==> t.numStart <= r.value.numStart <= |r.value.symbols|
    ensures r.Success? ==> r.value.symbols[..t.numStart] == t.symbols[..t.numStart]
    ensures r.Success? ==> forall s | s in t.symbols :: s in r.value.symbols
    decreases |ws|
  {
    if |ws| == 0 then Success(t)
    else
      var t1 :- AbsorbToken(t, ws[0]);
      var rest := Absorb(t1, ws[1..]);
      if rest.Success? then
        assert rest.value.symbols[..t.numStart] == rest.value.symbols[..t1.numStart][..t.numStart];
        assert t1.symbols[..t.numStart] == t1.symbols[..t1.numStart][..t.numStart];
        rest
      else rest
  }

  /** The symbols the scan adds, in scan order: tokens not yet in the table,
      not empty and not starting with a digit, each taken once. */
  function NewSymbols(ws: seq<string>, known: set<string>): (r: seq<string>)
    ensures forall x | x in r :: x in ws && x !in known && (OperatorLike(x) || LetterLike(x))
    ensures NoDup(r)
    decreases |ws|
  {
    if |ws| == 0 then []
    else
      var w := ws[0];
      if w in known || |w| == 0 || IsDigit(w[0]) then NewSymbols(ws[1..], known)
      else
        var rest := NewSymbols(ws[1..], known + {w});
        assert forall i, j | 0 <= i < j < |[w] + rest| :: ([w] + rest)[i] != ([w] + rest)[j] by {
          forall i, j | 0 <= i < j < |[w] + rest| ensures ([w] + rest)[i] != ([w] + rest)[j] {
            if i == 0 { assert ([w] + rest)[j] in rest; }
          }
        }
        [w] + rest
  }

  /** The scan fails exactly when it meets an empty token that is not
      already a symbol. */
  lemma {:induction false} AbsorbFailsOnEmptyToken(t: OutTable, ws: seq<string>)
    requires t.numStart <= |t.symbols|
    ensures Absorb(t, ws).Failure? <==> "" in ws && "" !in t.symbols
    ensures Absorb(t, ws).Failure? ==> Absorb(t, ws).error == EmptyToken
    decreases |ws|
  {
    if |ws| > 0 {
      var t1 := AbsorbToken(t, ws[0]);
      assert "" in ws <==> ws[0] == "" || "" in ws[1..] by {
        assert ws == [ws[0]] + ws[1..];
      }
      if t1.Success? {
        assert Absorb(t, ws) == Absorb(t1.value, ws[1..]);
        AbsorbFailsOnEmptyToken(t1.value, ws[1..]);
        assert "" in t1.value.symbols <==> "" in t.symbols || ws[0] == "";
      }
    }
  }

  /** The elements of a list after inserting `w` at position `k`. */
  lemma InsertElements(s: seq<string>, k: nat, w: string)
    requires k <= |s|
    ensures Elements(s[..k] + [w] + s[k..]) == Elements(s) + {w}
    ensures Elements(s + [w]) == Elements(s) + {w}
  {
    assert s == s[..k] + s[k..];
  }

  /** Inserting `w` between `p` and `m`, then splitting after it. */
  lemma InsertCase(p: seq<string>, m: seq<string>, w: string, ins: seq<string>, app: seq<string>)
    ensures var s1 := p + [w] + m;
      s1[..|p| + 1] + ins + s1[|p| + 1..] + app == p + ([w] + ins) + m + app
  {
    var s1 := p + [w] + m;
    assert s1[..|p| + 1] == p + [w];
    assert s1[|p| + 1..] == m;
  }

  /** Appending `w` after `p + m`, then splitting after `p`. */
  lemma AppendCase(p: seq<string>, m: seq<string>, w: string, ins: seq<string>, app: seq<string>)
    ensures var s1 := p + m + [w];
      s1[..|p|] + ins + s1[|p|..] + app == p + ins + m + ([w] + app)
  {
    var s1 := p + m + [w];
    assert s1[..|p|] == p;
    assert s1[|p|..] == m + [w];
  }

  /** The scan as a whole: the table becomes
      `prefix ++ (new operator-like tokens) ++ rest ++ (new letter tokens)`
      where `prefix` is the part before the original `num_start`, and
      `num_start` advances by the number of inserted tokens. */
  lemma {:induction false} AbsorbShape(t: OutTable, ws: seq<string>)
    requires t.numStart <= |t.symbols|
    requires Absorb(t, ws).Success?
    ensures var n := NewSymbols(ws, Elements(t.symbols));
      Absorb(t, ws).value == OutTable(
        t.symbols[..t.numStart] + Filter(n, OperatorLike) + t.symbols[t.numStart..] + Filter(n, LetterLike),
        t.numStart + |Filter(n, OperatorLike)|)
    decreases |ws|
  {
    var known := Elements(t.symbols);
    if |ws| > 0 {
      var w := ws[0];
      var t1 := AbsorbToken(t, w).value;
      AbsorbShape(t1, ws[1..]);
      if w in t.symbols || IsDigit(w[0]) {
        assert NewSymbols(ws, known) == NewSymbols(ws[1..], known);
      } else {
        var rest := NewSymbols(ws[1..], known + {w});
        assert NewSymbols(ws, known) == [w] + rest;
        AbsorbTokenAdds(t, w);
        ShapeStep(t, w, rest);
      }
    }
  }

  /** A new token joins the table's elements. */
  lemma AbsorbTokenAdds(t: OutTable, w: string)
    requires t.numStart <= |t.symbols| && w !in t.symbols && |w| > 0 && !IsDigit(w[0])
    ensures Elements(AbsorbToken(t, w).value.symbols) == Elements(t.symbols) + {w}
  {
    InsertElements(t.symbols, t.numStart, w);
  }

  /** One new token moves the scan's layout forward: the table after the
      step, laid out with the remaining new tokens, is the table before it
      laid out with the step's token in front. */
  lemma ShapeStep(t: OutTable, w: string, rest: seq<string>)
    requires t.numStart <= |t.symbols| && w !in t.symbols && |w| > 0 && !IsDigit(w[0])
    ensures var t1 := AbsorbToken(t, w).value;
      && t1.symbols[..t1.numStart] + Filter(rest, OperatorLike) + t1.symbols[t1.numStart..] + Filter(rest, LetterLike)
         == t.symbols[..t.numStart] + Filter([w] + rest, OperatorLike) + t.symbols[t.numStart..]
            + Filter([w] + rest, LetterLike)
      && t1.numStart + |Filter(rest, OperatorLike)| == t.numStart + |Filter([w] + rest, OperatorLike)|
  {
    var t1 := AbsorbToken(t, w).value;
    FilterCons(w, rest, OperatorLike);
    FilterCons(w, rest, LetterLike);
    if !IsAlpha(w[0]) {
      assert OperatorLike(w) && !LetterLike(w);
      InsertStep(t, w, t1, Filter(rest, OperatorLike), Filter(rest, LetterLike));
    } else {
      assert !OperatorLike(w) && LetterLike(w);
      AppendStep(t, w, t1, Filter(rest, OperatorLike), Filter(rest, LetterLike));
    }
  }

  /** The layout step for a token inserted before the mask block. */
  lemma InsertStep(t: OutTable, w: string, t1: OutTable, ins: seq<string>, app: seq<string>)
    requires t.numStart <= |t.symbols|
    requires t1 == OutTable(t.symbols[..t.numStart] + [w] + t.symbols[t.numStart..], t.numStart + 1)
    ensures t1.symbols[..t1.numStart] + ins + t1.symbols[t1.numStart..] + app
         == t.symbols[..t.numStart] + ([w] + ins) + t.symbols[t.numStart..] + app
    ensures t1.numStart + |ins| == t.numStart + |[w] + ins|
  {
    InsertCase(t.symbols[..t.numStart], t.symbols[t.numStart..], w, ins, app);
  }

  /** The layout step for a token appended after the table. */
  lemma AppendStep(t: OutTable, w: string, t1: OutTable, ins: seq<string>, app: seq<string>)
    requires t.numStart <= |t.symbols|
    requires t1 == OutTable(t.symbols + [w], t.numStart)
    ensures t1.symbols[..t1.numStart] + ins + t1.symbols[t1.numStart..] + app
         == t.symbols[..t.numStart] + ins + t.symbols[t.numStart..] + ([w] + app)
  {
    var p := t.symbols[..t.numStart];
    var m := t.symbols[t.numStart..];
    assert t.symbols == p + m;
    AppendCase(p, m, w, ins, app);
  }

  /** The scan never introduces a duplicate. */
  lemma {:induction false} AbsorbNoDup(t: OutTable, ws: seq<string>)
    requires t.numStart <= |t.symbols| && NoDup(t.symbols)
    requires Absorb(t, ws).Success?
    ensures NoDup(Absorb(t, ws).value.symbols)
    decreases |ws|
  {
    if |ws| > 0 {
      var w := ws[0];
      var t1 := AbsorbToken(t, w).value;
      if t1.numStart > t.numStart {
        NoDupInsert(t.symbols, t.numStart, w);
      } else if t1 != t {
        NoDupInsert(t.symbols, |t.symbols|, w);
        assert t.symbols[..|t.symbols|] + [w] + t.symbols[|t.symbols|..] == t.symbols + [w];
      }
      AbsorbNoDup(t1, ws[1..]);
    }
  }

  /** `b` sits in `s` starting at position `k`. */
  predicate BlockAt(s: seq<string>, k: nat, b: seq<string>) {
    k + |b| <= |s| && s[k..k + |b|] == b
  }

  /** The table the scan starts from, and what it becomes. */
  lemma ScanLayout(prefix: seq<string>, block: seq<string>, gen: seq<string>, ws: seq<string>)
    requires Absorb(OutTable(prefix + block + gen, |prefix|), ws).Success?
    ensures var a := Absorb(OutTable(prefix + block + gen, |prefix|), ws).value;
      var n := NewSymbols(ws, Elements(prefix + block + gen));
      && a.symbols == prefix + Filter(n, OperatorLike) + block + gen + Filter(n, LetterLike)
      && a.numStart == |prefix| + |Filter(n, OperatorLike)|
  {
    var s := prefix + block + gen;
    ThreeParts(prefix, block, gen);
    AbsorbShape(OutTable(s, |prefix|), ws);
    var n := NewSymbols(ws, Elements(s));
    RegroupMiddle(prefix, Filter(n, OperatorLike), block, gen, Filter(n, LetterLike));
  }

  /** Splitting a three-part list after its first part. */
  lemma ThreeParts(p: seq<string>, b: seq<string>, g: seq<string>)
    ensures (p + b + g)[..|p|] == p
    ensures (p + b + g)[|p|..] == b + g
  {
  }

  /** Regrouping a concatenation whose middle is itself a concatenation. */
  lemma RegroupMiddle(p: seq<string>, i: seq<string>, b: seq<string>, g: seq<string>, a: seq<string>)
    ensures p + i + (b + g) + a == p + i + b + g + a
  {
  }

  /** The layout of a six-part table: which part sits where. */
  lemma SixParts(p: seq<string>, i: seq<string>, b: seq<string>, g: seq<string>, a: seq<string>, u: seq<string>)
    ensures var s := p + i + b + g + a + u;
      && s[..|p|] == p
      && BlockAt(s, |p| + |i|, b)
      && BlockAt(s, |p| + |i| + |b|, g)
      && s[|p| + |i| + |b| + |g| + |a|..] == u
      && (forall k | |p| <= k < |p| + |i| :: s[k] == i[k - |p|])
      && (forall k | |p| + |i| + |b| + |g| <= k < |p| + |i| + |b| + |g| + |a| ::
            s[k] == a[k - (|p| + |i| + |b| + |g|)])
  {
    var s := p + i + b + g + a + u;
    assert s[|p| + |i|..|p| + |i| + |b|] == b;
    assert s[|p| + |i| + |b|..|p| + |i| + |b| + |g|] == g;
  }

  /** `_build_symbol`: the non-tree output table. */
  function BuildSymbol(shareVocab: bool, mask: MaskSymbol, copyNums: nat,
                       generateList: seq<string>, equations: seq<string>,
                       enums: Enums): (r: Result<OutTable>)
    ensures MaskBlock(mask, copyNums, generateList, enums).Failure? ==>
      r == Failure(MaskBlock(mask, copyNums, generateList, enums).error)
    ensures r.Success? ==>
      && |SymbolPrefix(shareVocab, enums)| <= r.value.numStart < |r.value.symbols|
      && r.value.symbols[..|SymbolPrefix(shareVocab, enums)|] == SymbolPrefix(shareVocab, enums)
      && r.value.symbols[|r.value.symbols| - 1] == UnkToken
  {
    var prefix := SymbolPrefix(shareVocab, enums);
    var block :- MaskBlock(mask, copyNums, generateList, enums);
    var initial := prefix + block + generateList;
    var absorbed :- Absorb(OutTable(initial, |prefix|), equations);
    assert initial[..|prefix|] == prefix;
    assert (absorbed.symbols + [UnkToken])[..|prefix|] == absorbed.symbols[..|prefix|];
    Success(OutTable(absorbed.symbols + [UnkToken], absorbed.numStart))
  }

  /** Error cases of `_build_symbol`: an unsupported `mask_symbol`, a
      `copy_nums` beyond the mask alphabet, or an empty equation token;
      nothing else fails. */
  lemma BuildSymbolErrors(shareVocab: bool, mask: MaskSymbol, copyNums: nat,
                          generateList: seq<string>, equations: seq<string>, enums: Enums)
    ensures var r := BuildSymbol(shareVocab, mask, copyNums, generateList, equations, enums);
      && (mask.OtherMask? ==> r == Failure(NotImplementedError(mask.name)))
      && (!mask.OtherMask? && copyNums > |MaskAlphabet(mask, enums).value| ==>
            r == Failure(ShortageError(mask, |MaskAlphabet(mask, enums).value|, generateList, copyNums)))
      && (MaskBlock(mask, copyNums, generateList, enums).Success? ==>
            var initial := SymbolPrefix(shareVocab, enums) + MaskBlock(mask, copyNums, generateList, enums).value + generateList;
            (r.Failure? <==> "" in equations && "" !in initial)
            && (r.Failure? ==> r.error == EmptyToken))
  {
    var prefix := SymbolPrefix(shareVocab, enums);
    var block := MaskBlock(mask, copyNums, generateList, enums);
    if block.Success? {
      AbsorbFailsOnEmptyToken(OutTable(prefix + block.value + generateList, |prefix|), equations);
    }
  }

  /** Placement of the training-equation symbols in the non-tree table:
      the table is `prefix ++ inserted ++ masks ++ generate_list ++ appended
      ++ [UNK]`, where `inserted` are the new operator-like tokens and
      `appended` the new letter tokens, each in scan order and each once, and
      `num_start` is the prefix length plus the number of inserted tokens. A
      duplicate-free starting table stays duplicate-free. */
  lemma BuildSymbolLayout(shareVocab: bool, mask: MaskSymbol, copyNums: nat,
                          generateList: seq<string>, equations: seq<string>, enums: Enums)
    requires BuildSymbol(shareVocab, mask, copyNums, generateList, equations, enums).Success?
    ensures var r := BuildSymbol(shareVocab, mask, copyNums, generateList, equations, enums).value;
      var prefix := SymbolPrefix(shareVocab, enums);
      var block := MaskBlock(mask, copyNums, generateList, enums).value;
      var n := NewSymbols(equations, Elements(prefix + block + generateList));
      && r.symbols == prefix + Filter(n, OperatorLike) + block + generateList + Filter(n, LetterLike) + [UnkToken]
      && r.numStart == |prefix| + |Filter(n, OperatorLike)|
      && (NoDup(prefix + block + generateList) ==> NoDup(r.symbols[..|r.symbols| - 1]))
  {
    var prefix := SymbolPrefix(shareVocab, enums);
    var block := MaskBlock(mask, copyNums, generateList, enums).value;
    var init := OutTable(prefix + block + generateList, |prefix|);
    ScanLayout(prefix, block, generateList, equations);
    var r := BuildSymbol(shareVocab, mask, copyNums, generateList, equations, enums).value;
    assert r.symbols[..|r.symbols| - 1] == Absorb(init, equations).value.symbols;
    if NoDup(prefix + block + generateList) {
      AbsorbNoDup(init, equations);
    }
  }

  /** The key invariant of the non-tree table: whatever training-equation
      symbols were inserted, `num_start` marks the mask block, which is
      followed by the generated symbols; the fixed prefix stays in front,
      every symbol between the prefix and `num_start` is operator-like, every
      symbol between the generated symbols and the final UNK starts with a
      letter, and UNK is last. */
  lemma NumStartMarksMaskBlock(shareVocab: bool, mask: MaskSymbol, copyNums: nat,
                               generateList: seq<string>, equations: seq<string>, enums: Enums,
                               t: OutTable)
    requires BuildSymbol(shareVocab, mask, copyNums, generateList, equations, enums) == Success(t)
    ensures var prefix := SymbolPrefix(shareVocab, enums);
      && |prefix| <= t.numStart
      && t.symbols[..|prefix|] == prefix
      && BlockAt(t.symbols, t.numStart, MaskBlock(mask, copyNums, generateList, enums).value)
      && BlockAt(t.symbols, t.numStart + copyNums, generateList)
      && (forall i | |prefix| <= i < t.numStart :: OperatorLike(t.symbols[i]))
      && (forall i | t.numStart + copyNums + |generateList| <= i < |t.symbols| - 1 :: LetterLike(t.symbols[i]))
      && t.symbols[|t.symbols| - 1] == UnkToken
  {
    var prefix := SymbolPrefix(shareVocab, enums);
    var block := MaskBlock(mask, copyNums, generateList, enums).value;
    BuildSymbolLayout(shareVocab, mask, copyNums, generateList, equations, enums);
    var n := NewSymbols(equations, Elements(prefix + block + generateList));
    var ins := Filter(n, OperatorLike);
    var app := Filter(n, LetterLike);
    TableParts(t, prefix, ins, block, generateList, app, copyNums);
  }

  /** Where each part of a table laid out as
      `prefix ++ inserted ++ block ++ gen ++ appended ++ [UNK]` sits, when
      `num_start` points just past the inserted tokens. */
  lemma TableParts(r: OutTable, prefix: seq<string>, ins: seq<string>, block: seq<string>,
                   gen: seq<string>, app: seq<string>, copyNums: nat)
    requires r.symbols == prefix + ins + block + gen + app + [UnkToken]
    requires |block| == copyNums
    requires r.numStart == |prefix| + |ins|
    requires forall x | x in ins :: OperatorLike(x)
    requires forall x | x in app :: LetterLike(x)
    ensures |prefix| <= r.numStart
    ensures r.symbols[..|prefix|] == prefix
    ensures BlockAt(r.symbols, r.numStart, block)
    ensures BlockAt(r.symbols, r.numStart + copyNums, gen)
    ensures forall i | |prefix| <= i < r.numStart :: OperatorLike(r.symbols[i])
    ensures forall i | r.numStart + copyNums + |gen| <= i < |r.symbols| - 1 :: LetterLike(r.symbols[i])
    ensures r.symbols[|r.symbols| - 1] == UnkToken
  {
    SixParts(prefix, ins, block, gen, app, [UnkToken]);
    forall i | |prefix| <= i < r.numStart
      ensures OperatorLike(r.symbols[i])
    {
      assert ins[i - |prefix|] in ins;
    }
    forall i | r.numStart + |block| + |gen| <= i < |r.symbols| - 1
      ensures LetterLike(r.symbols[i])
    {
      assert app[i - (r.numStart + |block| + |gen|)] in app;
    }
  }

  /** `_build_symbol_for_tree`: operators, then the generated symbols, then
      the mask block, then UNK; `num_start` is the operator count, and there
      is no PAD, SOS or EOS. */
  function BuildSymbolForTree(mask: MaskSymbol, copyNums: nat, generateList: seq<string>,
                              enums: Enums): (r: Result<OutTable>)
    ensures r.Success? <==> MaskAlphabet(mask, enums).Success? && copyNums <= |MaskAlphabet(mask, enums).value|
    ensures mask.OtherMask? ==> r == Failure(NotImplementedError(mask.name))
    ensures MaskAlphabet(mask, enums).Success? && copyNums > |MaskAlphabet(mask, enums).value| ==>
      r == Failure(ShortageError(mask, |MaskAlphabet(mask, enums).value|, generateList, copyNums))
    ensures var ops := enums.operators;
      r.Success? ==>
        && r.value.numStart == |ops|
        && |r.value.symbols| == |ops| + |generateList| + copyNums + 1
        && r.value.symbols[..|ops|] == ops
        && r.value.symbols[|ops|..|ops| + |generateList|] == generateList
        && r.value.symbols[|ops| + |generateList|..|ops| + |generateList| + copyNums]
           == MaskAlphabet(mask, enums).value[..copyNums]
        && r.value.symbols[|r.value.symbols| - 1] == UnkToken
        && (forall s | s in [PadToken, SosToken, EosToken] && s in r.value.symbols ::
              s in ops || s in generateList || s in MaskAlphabet(mask, enums).value[..copyNums])
  {
    var ops := enums.operators;
    var block :- MaskBlock(mask, copyNums, generateList, enums);
    var symbols := ops + generateList + block + [UnkToken];
    assert symbols[..|ops|] == ops;
    assert symbols[|ops|..|ops| + |generateList|] == generateList;
    assert symbols[|ops| + |generateList|..|ops| + |generateList| + copyNums] == block;
    Success(OutTable(symbols, |ops|))
  }

  // ---------------------------------------------------------------------
  // _build_vocab: the whole vocabulary
  // ---------------------------------------------------------------------

  /** The options `_build_vocab` reads. */
  datatype VocabOptions = VocabOptions(
    minWordKeep: int,
    symbolForTree: bool,
    shareVocab: bool,
    maskSymbol: MaskSymbol)

  /** The four lookup structures and `num_start`. */
  datatype Vocab = Vocab(
    inIdx2Word: seq<string>,
    inWord2Idx: map<string, nat>,
    outIdx2Symbol: seq<string>,
    outSymbol2Idx: map<string, nat>,
    numStart: nat)

  /** The output table `_build_vocab` asks for. */
  function OutputTable(trainset: seq<Example>, opts: VocabOptions, prep: Prepared,
                       enums: Enums): (r: Result<OutTable>)
    ensures opts.maskSymbol.OtherMask? ==> r == Failure(NotImplementedError(opts.maskSymbol.name))
    ensures r.Success? ==>
      && r.value.numStart < |r.value.symbols|
      && r.value.symbols[|r.value.symbols| - 1] == UnkToken
  {
    if opts.symbolForTree then
      BuildSymbolForTree(opts.maskSymbol, prep.copyNums, prep.generateList, enums)
    else
      BuildSymbol(opts.shareVocab, opts.maskSymbol, prep.copyNums, prep.generateList,
                  EquationTokens(trainset), enums)
  }

  /** The input list after the optional sharing step. */
  function SharedWords(base: seq<string>, symbols: seq<string>, share: bool): (r: seq<string>)
    ensures |base| <= |r| && r[..|base|] == base
    ensures !share ==> r == base
    ensures share ==> forall s | s in symbols :: s in r
    ensures share ==> forall x | x in r[|base|..] :: x in symbols && x !in base
  {
    if share then AppendMissing(base, symbols) else base
  }

  /** `_build_vocab`. The input list starts with the special tokens and is
      only ever extended; with a shared vocabulary it then holds every output
      symbol, appends nothing that was already there, and keeps the indices of
      the words it had. */
  function BuildVocab(trainset: seq<Example>, opts: VocabOptions, prep: Prepared,
                      enums: Enums): (r: Result<Vocab>)
    ensures r.Success? <==> OutputTable(trainset, opts, prep, enums).Success?
    ensures var base := InputWords(trainset, opts.minWordKeep, enums);
      r.Success? ==>
        && |base| <= |r.value.inIdx2Word|
        && r.value.inIdx2Word[..|base|] == base
        && r.value.inIdx2Word[..|enums.specialTokens|] == enums.specialTokens
        && (!opts.shareVocab ==> r.value.inIdx2Word == base)
        && (opts.shareVocab ==> forall s | s in r.value.outIdx2Symbol :: s in r.value.inIdx2Word)
        && (opts.shareVocab ==> forall x | x in r.value.inIdx2Word[|base|..] ::
              x in r.value.outIdx2Symbol && x !in base)
        && r.value.outIdx2Symbol == OutputTable(trainset, opts, prep, enums).value.symbols
        && r.value.numStart == OutputTable(trainset, opts, prep, enums).value.numStart
  {
    var base := InputWords(trainset, opts.minWordKeep, enums);
    assert base[..|enums.specialTokens|] == enums.specialTokens;
    var table :- OutputTable(trainset, opts, prep, enums);
    var inWords := SharedWords(base, table.symbols, opts.shareVocab);
    assert inWords[..|enums.specialTokens|] == inWords[..|base|][..|enums.specialTokens|];
    Success(Vocab(inWords, IndexMap(inWords), table.symbols, IndexMap(table.symbols), table.numStart))
  }

  /** The index maps invert the lists: every listed word is a key, each key
      maps to the last position holding it, and so, when a list is
      duplicate-free, `word2idx[idx2word[i]] == i` for every position `i`. */
  lemma VocabRoundTrip(trainset: seq<Example>, opts: VocabOptions, prep: Prepared, enums: Enums, v: Vocab)
    requires BuildVocab(trainset, opts, prep, enums) == Success(v)
    ensures IndexesList(v.inWord2Idx, v.inIdx2Word)
    ensures IndexesList(v.outSymbol2Idx, v.outIdx2Symbol)
  {
    BuiltMapsIndexLists(trainset, opts, prep, enums, v);
    IndexMapIndexes(v.inIdx2Word);
    IndexMapIndexes(v.outIdx2Symbol);
  }

  /** The special tokens a built vocabulary can look up: every special
      token in the input map, UNK in the output map, and, for the non-tree
      table, PAD and EOS in the output map, with SOS as well when the
      vocabulary is not shared. */
  lemma BuiltVocabSpecialKeys(trainset: seq<Example>, opts: VocabOptions, prep: Prepared, enums: Enums, v: Vocab)
    requires BuildVocab(trainset, opts, prep, enums) == Success(v)
    ensures forall t | t in enums.specialTokens :: t in v.inWord2Idx
    ensures UnkToken in v.outSymbol2Idx
    ensures !opts.symbolForTree ==> PadToken in v.outSymbol2Idx && EosToken in v.outSymbol2Idx
    ensures !opts.symbolForTree && !opts.shareVocab ==> SosToken in v.outSymbol2Idx
  {
    BuiltMapsIndexLists(trainset, opts, prep, enums, v);
    forall t | t in enums.specialTokens
      ensures t in v.inIdx2Word
    {
      assert t in v.inIdx2Word[..|enums.specialTokens|];
    }
    OutputTableSpecials(trainset, opts, prep, enums, OutputTable(trainset, opts, prep, enums).value);
  }

  /** UNK ends every output table; the non-tree table also starts with its
      fixed prefix of PAD, SOS unless shared, and EOS. */
  lemma OutputTableSpecials(trainset: seq<Example>, opts: VocabOptions, prep: Prepared, enums: Enums, t: OutTable)
    requires OutputTable(trainset, opts, prep, enums) == Success(t)
    ensures UnkToken in t.symbols
    ensures !opts.symbolForTree ==> PadToken in t.symbols && EosToken in t.symbols
    ensures !opts.symbolForTree && !opts.shareVocab ==> SosToken in t.symbols
  {
    if !opts.symbolForTree {
      PrefixSpecials(opts.shareVocab, enums, t.symbols);
    }
    assert t.symbols[|t.symbols| - 1] == UnkToken;
  }

  /** A list that starts with the non-tree prefix holds its special tokens. */
  lemma PrefixSpecials(shareVocab: bool, enums: Enums, symbols: seq<string>)
    requires |SymbolPrefix(shareVocab, enums)| <= |symbols|
    requires symbols[..|SymbolPrefix(shareVocab, enums)|] == SymbolPrefix(shareVocab, enums)
    ensures PadToken in symbols && EosToken in symbols
    ensures !shareVocab ==> SosToken in symbols
  {
    var prefix := SymbolPrefix(shareVocab, enums);
    assert symbols[0] == prefix[0] == PadToken;
    if shareVocab {
      assert symbols[1] == prefix[1] == EosToken;
    } else {
      assert symbols[1] == prefix[1] == SosToken;
      assert symbols[2] == prefix[2] == EosToken;
    }
  }

  /** Both maps of a built vocabulary are the index maps of their lists. */
  lemma BuiltMapsIndexLists(trainset: seq<Example>, opts: VocabOptions, prep: Prepared, enums: Enums, v: Vocab)
    requires BuildVocab(trainset, opts, prep, enums) == Success(v)
    ensures v.inWord2Idx == IndexMap(v.inIdx2Word) && v.outSymbol2Idx == IndexMap(v.outIdx2Symbol)
  {
  }
}
