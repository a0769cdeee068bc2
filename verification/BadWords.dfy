/** `NoBadWordsLogitsProcessor`: a lazily built bias for one-token bad words and a suffix match per
    step for the longer ones, and what that means for a whole generation run. */
module BadWords {
  import opened Wrappers

  /** A logit as a float without rounding. */
  datatype Logit = NegInf | Finite(value: real) | PosInf | NaN

  /** IEEE addition, exact on the finite values. */
  function Add(a: Logit, b: Logit): Logit {
    match (a, b)
    case (Finite(x), Finite(y)) => Finite(x + y)
    case (NaN, _) => NaN
    case (_, NaN) => NaN
    case (NegInf, PosInf) => NaN
    case (PosInf, NegInf) => NaN
    case (NegInf, _) => NegInf
    case (_, NegInf) => NegInf
    case (PosInf, _) => PosInf
    case (_, PosInf) => PosInf
  }

  const SMALLEST: Logit := NegInf
  const NEUTRAL: Logit := Finite(0.0)

  datatype Result<T> = Ok(value: T) | ValueError(invalid: seq<int>) | IndexError | RuntimeError

  // ----- what the processor is for

  /** `word` ends at the last token of `tokens`. */
  predicate EndsWith(tokens: seq<int>, word: seq<int>) {
    |word| <= |tokens| && tokens[|tokens| - |word|..] == word
  }

  /** Sampling `token` after `past` completes some bad word. */
  predicate Completes(words: seq<seq<int>>, past: seq<int>, token: int) {
    exists i :: 0 <= i < |words| && EndsWith(past + [token], words[i])
  }

  /** The logit a banned token is left with. */
  function Banned(logit: Logit): Logit {
    if logit.PosInf? || logit.NaN? then NaN else NegInf
  }

  /** The processed logits: banned exactly where a bad word would be completed, else unchanged. */
  ghost predicate Processed(words: seq<seq<int>>, past: seq<int>, logits: seq<Logit>, out: seq<Logit>) {
    && |out| == |logits|
    && forall t :: 0 <= t < |logits| ==> out[t] == if Completes(words, past, t) then Banned(logits[t]) else logits[t]
  }

  predicate InVocabulary(words: seq<seq<int>>, vocabSize: int) {
    forall i, j :: 0 <= i < |words| && 0 <= j < |words[i]| ==> 0 <= words[i][j] < vocabSize
  }

  predicate NonEmpty(words: seq<seq<int>>) {
    forall i :: 0 <= i < |words| ==> words[i] != []
  }

  // ----- the two biases

  /** Some word among the first `n`, of one token, is `token`. */
  predicate SingleBefore(words: seq<seq<int>>, n: nat, token: int)
    requires n <= |words|
  {
    exists i :: 0 <= i < n && words[i] == [token]
  }

  /** Some longer word among the first `n` is completed by `token`. */
  predicate LongBefore(words: seq<seq<int>>, n: nat, past: seq<int>, token: int)
    requires n <= |words|
  {
    n > 0 && (LongBefore(words, n - 1, past, token) || (|words[n - 1]| > 1 && EndsWith(past + [token], words[n - 1])))
  }

  lemma {:induction false} LongBeforeIff(words: seq<seq<int>>, n: nat, past: seq<int>, token: int)
    requires n <= |words|
    ensures LongBefore(words, n, past, token)
       <==> exists i :: 0 <= i < n && |words[i]| > 1 && EndsWith(past + [token], words[i])
  {
    if n > 0 {
      LongBeforeIff(words, n - 1, past, token);
    }
  }

  function Bias(banned: bool): Logit {
    if banned then SMALLEST else NEUTRAL
  }

  ghost predicate IsWordBias(words: seq<seq<int>>, bias: seq<Logit>) {
    forall t :: 0 <= t < |bias| ==> bias[t] == Bias(SingleBefore(words, |words|, t))
  }

  lemma AddTwice(logit: Logit, single: bool, long: bool)
    ensures Add(Add(logit, Bias(single)), Bias(long)) == if single || long then Banned(logit) else logit
  {
    match logit
    case Finite(x) => assert x + 0.0 + 0.0 == x;
    case _ =>
  }

  /** The sum of the logits and the two biases is the processed vector. */
  lemma AddBiases(words: seq<seq<int>>, past: seq<int>, logits: seq<Logit>, wordBias: seq<Logit>,
                  stepBias: seq<Logit>, out: seq<Logit>)
    requires NonEmpty(words) && |wordBias| == |stepBias| == |logits|
    requires IsWordBias(words, wordBias) && IsStepBias(words, past, stepBias)
    requires AddTensors(AddTensors(logits, wordBias).value, stepBias) == Some(out)
    ensures Processed(words, past, logits, out)
  {
    forall t | 0 <= t < |logits|
      ensures out[t] == if Completes(words, past, t) then Banned(logits[t]) else logits[t]
    {
      SplitByLength(words, past, t);
      AddTwice(logits[t], SingleBefore(words, |words|, t), LongBefore(words, |words|, past, t));
    }
  }

  lemma SplitByLength(words: seq<seq<int>>, past: seq<int>, token: int)
    requires NonEmpty(words)
    ensures Completes(words, past, token)
       <==> SingleBefore(words, |words|, token) || LongBefore(words, |words|, past, token)
  {
    LongBeforeIff(words, |words|, past, token);
    assert (past + [token])[|past|..] == [token];
    if Completes(words, past, token) {
      var i :| 0 <= i < |words| && EndsWith(past + [token], words[i]);
      assert |words[i]| == 1 ==> words[i] == [token];
    }
    if SingleBefore(words, |words|, token) {
      var i :| 0 <= i < |words| && words[i] == [token];
      assert EndsWith(past + [token], words[i]);
    }
  }

  /** Tensor addition along one dimension: a tensor of one element is broadcast. */
  function AddTensors(a: seq<Logit>, b: seq<Logit>): Option<seq<Logit>> {
    if |a| == |b| then Some(seq(|a|, t requires 0 <= t < |a| => Add(a[t], b[t])))
    else if |b| == 1 then Some(seq(|a|, t requires 0 <= t < |a| => Add(a[t], b[0])))
    else if |a| == 1 then Some(seq(|b|, t requires 0 <= t < |b| => Add(a[0], b[t])))
    else None
  }

  /** The step bias of a call: minus infinity on the last token of every longer word just prefixed. */
  ghost predicate IsStepBias(words: seq<seq<int>>, past: seq<int>, bias: seq<Logit>) {
    forall t :: 0 <= t < |bias| ==> bias[t] == Bias(LongBefore(words, |words|, past, t))
  }

  /** `out` is the sum of the logits, the cached bias and a step bias. */
  ghost predicate IsSum(words: seq<seq<int>>, past: seq<int>, logits: seq<Logit>, wordBias: seq<Logit>,
                        stepBias: seq<Logit>, out: seq<Logit>)
  {
    && |stepBias| == |logits| && IsStepBias(words, past, stepBias)
    && AddTensors(logits, wordBias).Some?
    && AddTensors(AddTensors(logits, wordBias).value, stepBias) == Some(out)
  }

  /** The processed logits when the cached bias is for `cached` tokens: a vector of one element stands for all. */
  ghost predicate ProcessedAcross(words: seq<seq<int>>, past: seq<int>, logits: seq<Logit>, cached: nat, out: seq<Logit>) {
    && |out| == (if |logits| == 1 then cached else |logits|)
    && forall t :: 0 <= t < |out| ==> OutAcross(words, past, logits, cached, t, out[t])
  }

  /** Token `t` is banned if the cached bias, or the bias of this step, has minus infinity where it is read for `t`. */
  predicate OutAcross(words: seq<seq<int>>, past: seq<int>, logits: seq<Logit>, cached: nat, t: nat, out: Logit) {
    var read, single := if |logits| == 1 then 0 else t, if cached == 1 then 0 else t;
    && read < |logits|
    && out == if [single] in words || LongBefore(words, |words|, past, read) then Banned(logits[read]) else logits[read]
  }

  lemma AddAcross(words: seq<seq<int>>, past: seq<int>, logits: seq<Logit>, wordBias: seq<Logit>,
                  stepBias: seq<Logit>, out: seq<Logit>)
    requires IsWordBias(words, wordBias) && IsSum(words, past, logits, wordBias, stepBias, out)
    ensures ProcessedAcross(words, past, logits, |wordBias|, out)
  {
    forall t | 0 <= t < |out| ensures OutAcross(words, past, logits, |wordBias|, t, out[t]) {
      var read, single := if |logits| == 1 then 0 else t, if |wordBias| == 1 then 0 else t;
      AddTwice(logits[read], SingleBefore(words, |words|, single), LongBefore(words, |words|, past, read));
    }
  }

  /** The loop over the words finds a last token for each, and indexes a bias of `vocabSize` with the long ones. */
  predicate Indexable(words: seq<seq<int>>, past: seq<int>, vocabSize: nat) {
    forall i :: 0 <= i < |words| ==> Fits(words[i], past, vocabSize)
  }

  predicate Fits(word: seq<int>, past: seq<int>, vocabSize: nat) {
    word != [] && (2 <= |word| <= |past| + 1 ==> word[|word| - 1] < vocabSize)
  }

  ghost predicate IsBiasBefore(words: seq<seq<int>>, n: nat, past: seq<int>, bias: seq<Logit>)
    requires n <= |words|
  {
    forall t :: 0 <= t < |bias| ==> bias[t] == Bias(LongBefore(words, n, past, t))
  }

  /** After `past` the word bans `last`, if it matches, and no other token. */
  ghost predicate Bans(word: seq<int>, past: seq<int>, isMatch: bool, last: int) {
    forall t :: EndsWith(past + [t], word) <==> isMatch && t == last
  }

  /** What the prefix test of `__call__` decides. */
  lemma PrefixTest(word: seq<int>, past: seq<int>, isMatch: bool, last: int)
    requires 2 <= |word| <= |past| + 1 && last == word[|word| - 1]
    requires isMatch == (past[|past| - (|word| - 1)..] == word[..|word| - 1])
    ensures Bans(word, past, isMatch, last)
  {
    forall t ensures EndsWith(past + [t], word) <==> isMatch && t == last {
      PrefixMatch(past, word, t);
    }
  }

  /** One longer word is added to the bias. */
  lemma StepWord(words: seq<seq<int>>, past: seq<int>, n: nat, bias: seq<Logit>, isMatch: bool, last: int)
    requires n < |words| && 2 <= |words[n]| && IsBiasBefore(words, n, past, bias)
    requires Bans(words[n], past, isMatch, last) && 0 <= last < |bias|
    ensures
      var more := bias[last := Add(bias[last], if isMatch then SMALLEST else NEUTRAL)];
      forall t :: 0 <= t < |bias| ==> more[t] == Bias(LongBefore(words, n + 1, past, t))
  {
  }

  /** For a word of two tokens or more the prefix test is the suffix match. */
  lemma PrefixMatch(past: seq<int>, word: seq<int>, token: int)
    requires 2 <= |word| <= |past| + 1
    ensures EndsWith(past + [token], word)
       <==> past[|past| - (|word| - 1)..] == word[..|word| - 1] && word[|word| - 1] == token
  {
    var p := |word| - 1;
    var whole := (past + [token])[|past| + 1 - |word|..];
    assert whole == past[|past| - p..] + [token];
    assert word == word[..p] + [word[p]];
    if whole == word {
      assert whole[..p] == past[|past| - p..];
      assert whole[p] == token;
    }
  }

  /** A word that is not among the longer ones does not change the step bias. */
  lemma SkipWord(words: seq<seq<int>>, past: seq<int>, n: nat, bias: seq<Logit>)
    requires n < |words| && (|words[n]| == 1 || |words[n]| > |past| + 1) && IsBiasBefore(words, n, past, bias)
    ensures IsBiasBefore(words, n + 1, past, bias)
  {
  }

  class NoBadWordsLogitsProcessor {
    const badWordsIds: seq<seq<int>>
    var wordBias: Option<seq<Logit>>
    /** How often the cached bias has been built. */
    ghost var builds: nat

    ghost predicate Valid()
      reads this
    {
      && builds == (if wordBias.Some? then 1 else 0)
      && (wordBias.Some? ==> IsWordBias(badWordsIds, wordBias.value) && InVocabulary(badWordsIds, |wordBias.value|))
    }

    constructor (badWordsIds: seq<seq<int>>)
      ensures Valid() && this.badWordsIds == badWordsIds && wordBias == None
    {
      this.badWordsIds := badWordsIds;
      wordBias, builds := None, 0;
    }

    /** `__call__`.  The cached bias keeps the size of the first vocabulary; logits of another size are added to it
        as tensors are, or the sizes clash. */
    method Call(past: seq<int>, logits: seq<Logit>) returns (r: Result<seq<Logit>>)
      requires Valid()
      modifies this
      ensures Valid()
      ensures old(wordBias).Some? ==> wordBias == old(wordBias)
      ensures r.ValueError? <==> old(wordBias).None? && !InVocabulary(badWordsIds, |logits|)
      ensures r.ValueError? ==> wordBias == None
      ensures !r.ValueError? ==> wordBias.Some? && (old(wordBias).None? ==> |wordBias.value| == |logits|)
      ensures r.IndexError? <==> !r.ValueError? && !Indexable(badWordsIds, past, |logits|)
      ensures r.RuntimeError? <==>
        (!r.ValueError? && !r.IndexError? && |wordBias.value| != |logits| && |wordBias.value| != 1 && |logits| != 1)
      ensures r.Ok? && |wordBias.value| == |logits| ==> Processed(badWordsIds, past, logits, r.value)
      ensures r.Ok? ==> ProcessedAcross(badWordsIds, past, logits, |wordBias.value|, r.value)
    {
      if wordBias.None? {
        var invalid := InitWordBias(|logits|);
        if invalid != [] {
          return ValueError(invalid);
        }
      }
      var lastTokenBias := LastTokenBias(past, |logits|);
      if lastTokenBias.None? {
        return IndexError;
      }
      var sum := AddTensors(logits, wordBias.value);
      if sum.None? {
        return RuntimeError;
      }
      var out := AddTensors(sum.value, lastTokenBias.value);
      AddAcross(badWordsIds, past, logits, wordBias.value, lastTokenBias.value, out.value);
      if |wordBias.value| == |logits| {
        AddBiases(badWordsIds, past, logits, wordBias.value, lastTokenBias.value, out.value);
      }
      r := Ok(out.value);
    }

    /** The loop over the words of two tokens or more; `None` when an index fails. */
    method LastTokenBias(past: seq<int>, vocabSize: nat) returns (bias: Option<seq<Logit>>)
      requires forall i, j :: 0 <= i < |badWordsIds| && 0 <= j < |badWordsIds[i]| ==> 0 <= badWordsIds[i][j]
      ensures bias.Some? <==> Indexable(badWordsIds, past, vocabSize)
      ensures bias.Some? ==> |bias.value| == vocabSize && IsStepBias(badWordsIds, past, bias.value)
    {
      var lastTokenBias := seq(vocabSize, _ => NEUTRAL);
      for n := 0 to |badWordsIds|
        invariant |lastTokenBias| == vocabSize && IsBiasBefore(badWordsIds, n, past, lastTokenBias)
        invariant forall i :: 0 <= i < n ==> Fits(badWordsIds[i], past, vocabSize)
      {
        assert forall j :: 0 <= j < |badWordsIds[n]| ==> 0 <= badWordsIds[n][j];
        var more := AddWord(past, n, lastTokenBias);
        if more.None? {
          return None;
        }
        lastTokenBias := more.value;
      }
      bias := Some(lastTokenBias);
    }

    /** The body of the loop: word `n` is added to the bias, unless it has one token or is too long as yet. */
    method AddWord(past: seq<int>, n: nat, lastTokenBias: seq<Logit>) returns (bias: Option<seq<Logit>>)
      requires n < |badWordsIds| && IsBiasBefore(badWordsIds, n, past, lastTokenBias)
      requires forall j :: 0 <= j < |badWordsIds[n]| ==> 0 <= badWordsIds[n][j]
      ensures bias.Some? <==> Fits(badWordsIds[n], past, |lastTokenBias|)
      ensures bias.Some? ==> |bias.value| == |lastTokenBias| && IsBiasBefore(badWordsIds, n + 1, past, bias.value)
    {
      var word := badWordsIds[n];
      if |word| == 1 || |word| > |past| + 1 {
        SkipWord(badWordsIds, past, n, lastTokenBias);
        return Some(lastTokenBias);
      }
      if word == [] {
        return None;
      }
      var prefixLength := |word| - 1;
      var last := word[prefixLength];
      var isMatch := past[|past| - prefixLength..] == word[..prefixLength];
      if last >= |lastTokenBias| {
        return None;
      }
      PrefixTest(word, past, isMatch, last);
      StepWord(badWordsIds, past, n, lastTokenBias, isMatch, last);
      bias := Some(lastTokenBias[last := Add(lastTokenBias[last], if isMatch then SMALLEST else NEUTRAL)]);
    }

    /** `_init_word_bias`; the invalid tokens of the failed bounds check, if any. */
    method InitWordBias(vocabSize: nat) returns (invalid: seq<int>)
      requires wordBias.None?
      modifies this
      ensures invalid == [] <==> InVocabulary(badWordsIds, vocabSize)
      ensures invalid == [] ==> wordBias.Some? && |wordBias.value| == vocabSize && IsWordBias(badWordsIds, wordBias.value)
      ensures invalid != [] ==> wordBias == None
      ensures builds == old(builds) + if invalid == [] then 1 else 0
    {
      invalid := CheckTokenIdsBounds(vocabSize);
      if invalid != [] {
        return;
      }
      var bias := seq(vocabSize, _ => NEUTRAL);
      for n := 0 to |badWordsIds|
        invariant |bias| == vocabSize
        invariant forall t :: 0 <= t < vocabSize ==> bias[t] == Bias(SingleBefore(badWordsIds, n, t))
      {
        var word := badWordsIds[n];
        if |word| == 1 {
          assert 0 <= badWordsIds[n][0] < vocabSize;
          bias := bias[word[0] := SMALLEST];
          assert word == [word[0]];
        }
      }
      wordBias, builds := Some(bias), builds + 1;
    }

    method CheckTokenIdsBounds(vocabSize: nat) returns (invalid: seq<int>)
      ensures invalid == [] <==> InVocabulary(badWordsIds, vocabSize)
    {
      invalid := [];
      for n := 0 to |badWordsIds|
        invariant invalid == [] <==> InVocabulary(badWordsIds[..n], vocabSize)
      {
        ghost var before := invalid;
        for j := 0 to |badWordsIds[n]|
          invariant invalid == [] <==>
            before == [] && forall k :: 0 <= k < j ==> 0 <= badWordsIds[n][k] < vocabSize
        {
          var tokenId := badWordsIds[n][j];
          if tokenId < 0 || tokenId >= vocabSize {
            invalid := invalid + [tokenId];
          }
        }
        assert badWordsIds[..n + 1] == badWordsIds[..n] + [badWordsIds[n]];
      }
      assert badWordsIds[..|badWordsIds|] == badWordsIds;
    }
  }

  // ----- whole runs

  /** No bad word ends at position `n`. */
  ghost predicate CleanAt(words: seq<seq<int>>, tokens: seq<int>, n: nat)
    requires n < |tokens|
  {
    forall i :: 0 <= i < |words| ==> !EndsWith(tokens[..n + 1], words[i])
  }

  ghost predicate Clean(words: seq<seq<int>>, tokens: seq<int>) {
    forall n :: 0 <= n < |tokens| ==> CleanAt(words, tokens, n)
  }

  /** No interval of the tokens is a bad word. */
  ghost predicate NoOccurrence(words: seq<seq<int>>, tokens: seq<int>) {
    forall i, lo, hi :: 0 <= i < |words| && 0 <= lo < hi <= |tokens| ==> tokens[lo..hi] != words[i]
  }

  /** A run is clean exactly when none of its intervals is a bad word; only an empty word ends where it does not occur. */
  lemma CleanIffNoOccurrence(words: seq<seq<int>>, tokens: seq<int>)
    ensures Clean(words, tokens) <==> NoOccurrence(words, tokens) && (tokens == [] || NonEmpty(words))
  {
    if Clean(words, tokens) {
      forall i, lo, hi | 0 <= i < |words| && 0 <= lo < hi <= |tokens| ensures tokens[lo..hi] != words[i] {
        assert CleanAt(words, tokens, hi - 1);
        assert tokens[..hi][lo..] == tokens[lo..hi];
      }
      forall i | 0 <= i < |words| && tokens != [] ensures words[i] != [] {
        assert CleanAt(words, tokens, 0);
      }
    }
    if NoOccurrence(words, tokens) && NonEmpty(words) {
      forall n | 0 <= n < |tokens| ensures CleanAt(words, tokens, n) {
        forall i | 0 <= i < |words| ensures !EndsWith(tokens[..n + 1], words[i]) {
          var lo := n + 1 - |words[i]|;
          assert lo >= 0 ==> tokens[..n + 1][lo..] == tokens[lo..n + 1];
        }
      }
    }
  }

  /** The raw logits of a model are finite or minus infinity. */
  predicate Ordinary(logits: seq<Logit>) {
    forall t :: 0 <= t < |logits| ==> logits[t].Finite? || logits[t].NegInf?
  }

  /** Every step of a run has raw logits over one vocabulary, the one the bias was cached for. */
  predicate OneVocabulary(logits: seq<seq<Logit>>, vocabSize: nat, cached: Option<seq<Logit>>) {
    (forall n :: 0 <= n < |logits| ==> |logits[n]| == vocabSize) && (cached.Some? ==> |cached.value| == vocabSize)
  }

  /** The call that makes a run fail is its first one, for words the vocabulary lacks or a word that is empty. */
  predicate Raises(words: seq<seq<int>>, steps: nat, vocabSize: nat) {
    steps > 0 && (!InVocabulary(words, vocabSize) || !NonEmpty(words))
  }

  lemma IndexableInVocabulary(words: seq<seq<int>>, past: seq<int>, vocabSize: nat)
    requires InVocabulary(words, vocabSize)
    ensures Indexable(words, past, vocabSize) <==> NonEmpty(words)
  {
  }

  /** One call of a run over one vocabulary. */
  method Step(p: NoBadWordsLogitsProcessor, past: seq<int>, logits: seq<Logit>) returns (out: Result<seq<Logit>>)
    requires p.Valid() && (p.wordBias.Some? ==> |p.wordBias.value| == |logits|)
    modifies p
    ensures p.Valid() && (p.wordBias.Some? ==> |p.wordBias.value| == |logits|)
    ensures old(p.wordBias).Some? ==> p.wordBias == old(p.wordBias)
    ensures p.wordBias.Some? <==> old(p.wordBias).Some? || InVocabulary(p.badWordsIds, |logits|)
    ensures out.Ok? <==> !Raises(p.badWordsIds, 1, |logits|)
    ensures out.Ok? ==> Processed(p.badWordsIds, past, logits, out.value)
  {
    if InVocabulary(p.badWordsIds, |logits|) {
      IndexableInVocabulary(p.badWordsIds, past, |logits|);
    }
    out := p.Call(past, logits);
  }

  datatype Generated = Finished | Stuck | Raised

  /** The tokens taken so far: no bad word ends, and every raw logit taken is finite. */
  ghost predicate Taken(words: seq<seq<int>>, logits: seq<seq<Logit>>, tokens: seq<int>) {
    |tokens| <= |logits| && Clean(words, tokens) && TakesFinite(logits[..|tokens|], tokens)
  }

  /** No token may be taken after `past`. */
  ghost predicate NoneLeft(words: seq<seq<int>>, past: seq<int>, logits: seq<Logit>) {
    forall t :: 0 <= t < |logits| ==> logits[t] == NegInf || Completes(words, past, t)
  }

  lemma TakeMore(words: seq<seq<int>>, logits: seq<seq<Logit>>, tokens: seq<int>, out: seq<Logit>, token: int)
    requires Taken(words, logits, tokens) && |tokens| < |logits| && Ordinary(logits[|tokens|])
    requires Processed(words, tokens, logits[|tokens|], out) && 0 <= token < |out| && out[token] != NegInf
    ensures Taken(words, logits, tokens + [token])
  {
    CleanAppend(words, tokens, token);
  }

  /**
   * A generation run on one processor: every step calls it with the tokens so far and takes any token whose
   * returned logit is not minus infinity, as long as there is one. Whatever is taken, no bad word ever ends.
   */
  method Generate(p: NoBadWordsLogitsProcessor, logits: seq<seq<Logit>>, vocabSize: nat)
      returns (tokens: seq<int>, r: Generated)
    requires p.Valid() && OneVocabulary(logits, vocabSize, p.wordBias)
    requires forall n :: 0 <= n < |logits| ==> Ordinary(logits[n])
    modifies p
    ensures p.Valid() && (old(p.wordBias).Some? ==> p.wordBias == old(p.wordBias))
    ensures |logits| > 0 ==> p.builds == if InVocabulary(p.badWordsIds, vocabSize) then 1 else 0
    ensures r.Raised? <==> Raises(p.badWordsIds, |logits|, vocabSize)
    ensures r.Finished? ==> |tokens| == |logits|
    ensures Taken(p.badWordsIds, logits, tokens) && NoOccurrence(p.badWordsIds, tokens)
    ensures r.Stuck? ==> |tokens| < |logits| && NoneLeft(p.badWordsIds, tokens, logits[|tokens|])
  {
    tokens := [];
    for n := 0 to |logits|
      invariant p.Valid() && OneVocabulary(logits, vocabSize, p.wordBias)
      invariant old(p.wordBias).Some? ==> p.wordBias == old(p.wordBias)
      invariant n > 0 ==> p.wordBias.Some?
      invariant |tokens| == n && Taken(p.badWordsIds, logits, tokens)
      invariant n > 0 ==> !Raises(p.badWordsIds, 1, vocabSize)
    {
      var out := Step(p, tokens, logits[n]);
      CleanIffNoOccurrence(p.badWordsIds, tokens);
      if !out.Ok? {
        return tokens, Raised;
      }
      if forall t :: 0 <= t < |out.value| ==> out.value[t] == NegInf {
        return tokens, Stuck;
      }
      var token: int :| 0 <= token < |out.value| && out.value[token] != NegInf;
      TakeMore(p.badWordsIds, logits, tokens, out.value, token);
      tokens := tokens + [token];
    }
    CleanIffNoOccurrence(p.badWordsIds, tokens);
    r := Finished;
  }

  lemma CleanAppend(words: seq<seq<int>>, tokens: seq<int>, token: int)
    ensures Clean(words, tokens + [token]) <==> Clean(words, tokens) && !Completes(words, tokens, token)
  {
    var more := tokens + [token];
    assert more[..|more|] == more;
    assert CleanAt(words, more, |tokens|) <==> !Completes(words, tokens, token);
    forall n | 0 <= n < |tokens| ensures CleanAt(words, more, n) <==> CleanAt(words, tokens, n) {
      assert more[..n + 1] == tokens[..n + 1];
    }
  }

  /** Whether a token may be taken, for every raw logit: a ban on plus infinity or NaN is absorbed. */
  predicate Takable(words: seq<seq<int>>, past: seq<int>, logits: seq<Logit>, token: int) {
    && 0 <= token < |logits| && logits[token] != NegInf
    && (!Completes(words, past, token) || logits[token].PosInf? || logits[token].NaN?)
  }

  ghost predicate AllTakable(words: seq<seq<int>>, logits: seq<seq<Logit>>, tokens: seq<int>)
    requires |logits| == |tokens|
  {
    forall n :: 0 <= n < |tokens| ==> Takable(words, tokens[..n], logits[n], tokens[n])
  }

  datatype Replayed = Sampled | Rejected | Error

  /**
   * Whether a processor lets a given run be sampled: every token in turn has a returned logit that is not minus
   * infinity. With finite or minus-infinite raw logits these are exactly the runs in which no bad word ever ends.
   */
  method Replay(p: NoBadWordsLogitsProcessor, logits: seq<seq<Logit>>, tokens: seq<int>, vocabSize: nat)
      returns (r: Replayed)
    requires |logits| == |tokens| && p.Valid() && OneVocabulary(logits, vocabSize, p.wordBias)
    modifies p
    ensures p.Valid() && (old(p.wordBias).Some? ==> p.wordBias == old(p.wordBias))
    ensures |logits| > 0 ==> p.builds == if InVocabulary(p.badWordsIds, vocabSize) then 1 else 0
    ensures r.Error? <==> Raises(p.badWordsIds, |logits|, vocabSize)
    ensures !r.Error? ==> (r.Sampled? <==> AllTakable(p.badWordsIds, logits, tokens))
    ensures !r.Error? && (forall n :: 0 <= n < |logits| ==> Ordinary(logits[n])) ==>
      (r.Sampled? <==> Clean(p.badWordsIds, tokens) && TakesFinite(logits, tokens))
  {
    RunIsCleanIffTakable(p.badWordsIds, logits, tokens);
    for n := 0 to |tokens|
      invariant p.Valid() && OneVocabulary(logits, vocabSize, p.wordBias)
      invariant old(p.wordBias).Some? ==> p.wordBias == old(p.wordBias)
      invariant n > 0 ==> p.wordBias.Some?
      invariant n > 0 ==> !Raises(p.badWordsIds, 1, vocabSize)
      invariant forall i :: 0 <= i < n ==> Takable(p.badWordsIds, tokens[..i], logits[i], tokens[i])
    {
      var out := Step(p, tokens[..n], logits[n]);
      if !out.Ok? {
        return Error;
      }
      TakableIff(p.badWordsIds, tokens[..n], logits[n], out.value, tokens[n]);
      if tokens[n] < 0 || tokens[n] >= |out.value| || out.value[tokens[n]] == NegInf {
        return Rejected;
      }
    }
    r := Sampled;
  }

  lemma TakableIff(words: seq<seq<int>>, past: seq<int>, logits: seq<Logit>, out: seq<Logit>, token: int)
    requires Processed(words, past, logits, out)
    ensures Takable(words, past, logits, token) <==> 0 <= token < |out| && out[token] != NegInf
  {
  }

  predicate TakesFinite(logits: seq<seq<Logit>>, tokens: seq<int>)
    requires |logits| == |tokens|
  {
    forall n :: 0 <= n < |tokens| ==> 0 <= tokens[n] < |logits[n]| && logits[n][tokens[n]].Finite?
  }

  lemma RunIsCleanIffTakable(words: seq<seq<int>>, logits: seq<seq<Logit>>, tokens: seq<int>)
    requires |logits| == |tokens|
    ensures (forall n :: 0 <= n < |logits| ==> Ordinary(logits[n])) ==>
      (AllTakable(words, logits, tokens) <==> Clean(words, tokens) && TakesFinite(logits, tokens))
  {
    forall n | 0 <= n < |tokens| && Ordinary(logits[n])
      ensures Takable(words, tokens[..n], logits[n], tokens[n]) <==>
        CleanAt(words, tokens, n) && 0 <= tokens[n] < |logits[n]| && logits[n][tokens[n]].Finite?
    {
      assert tokens[..n] + [tokens[n]] == tokens[..n + 1];
    }
  }
}
