/**
  Bad-word masking in `vllm/logits_process.py`: before each token is chosen, the tokens that would
  complete a configured bad word get a logit of minus infinity.
 */
module BadWords {
  import opened Common

  type Token = int

  /** A logit: minus infinity, or a number. */
  datatype Logit = NegInf | Finite(value: real)

  const NEUTRAL := Finite(0.0)

  function Plus(a: Logit, b: Logit): Logit {
    if a.NegInf? || b.NegInf? then NegInf else Finite(a.value + b.value)
  }

  // ---------- What masking means ----------

  predicate EndsWith(s: seq<Token>, w: seq<Token>) {
    |w| <= |s| && s[|s| - |w|..] == w
  }

  /** Choosing `t` after `past` would complete the word `w`. */
  predicate Completes(w: seq<Token>, past: seq<Token>, t: Token) {
    w != [] && EndsWith(past + [t], w)
  }

  predicate Masked(words: seq<seq<Token>>, past: seq<Token>, t: Token) {
    exists w <- words :: Completes(w, past, t)
  }

  predicate WordInBounds(w: seq<Token>, vocab: nat) {
    forall j :: 0 <= j < |w| ==> 0 <= w[j] < vocab
  }

  predicate InBounds(words: seq<seq<Token>>, vocab: nat) {
    forall i :: 0 <= i < |words| ==> WordInBounds(words[i], vocab)
  }

  predicate Usable(words: seq<seq<Token>>, vocab: nat) {
    InBounds(words, vocab) && [] !in words
  }

  /** The cached part of the bias: one-token words are always masked. */
  function SingleBias(words: seq<seq<Token>>, vocab: nat): (bias: seq<Logit>) {
    seq(vocab, t => if [t] in words then NegInf else NEUTRAL)
  }

  /** `w` occurs in `out` as a contiguous run. */
  ghost predicate Occurs(w: seq<Token>, out: seq<Token>) {
    exists p :: OccursAt(w, out, p)
  }

  predicate OccursAt(w: seq<Token>, out: seq<Token>, p: int) {
    0 <= p <= |out| - |w| && out[p..p + |w|] == w
  }

  // ---------- Prefix matching ----------

  /** The test in the source: the last tokens are the word's prefix and `t` is its last token. */
  predicate PrefixMatches(w: seq<Token>, past: seq<Token>, t: Token)
    requires |w| >= 2
  {
    && |w| <= |past| + 1
    && past[|past| - (|w| - 1)..] == w[..|w| - 1]
    && w[|w| - 1] == t
  }

  /** It finds exactly the tokens that would complete the word. */
  lemma {:induction false} PrefixTest(w: seq<Token>, past: seq<Token>, t: Token)
    requires |w| >= 2
    ensures Completes(w, past, t) <==> PrefixMatches(w, past, t)
  {
    var s, n := past + [t], |w| - 1;
    if |w| <= |past| + 1 {
      assert s[|s| - |w|..] == past[|past| - n..] + [t];
      assert w == w[..n] + [w[n]];
    }
  }

  lemma {:induction false} SingleTest(w: seq<Token>, past: seq<Token>, t: Token)
    requires |w| == 1
    ensures Completes(w, past, t) <==> w == [t]
  {
    var s := past + [t];
    assert s[|s| - 1..] == [t];
  }

  /** Some word of two or more tokens would be completed by `t`. */
  predicate LongMasked(words: seq<seq<Token>>, past: seq<Token>, t: Token) {
    exists w <- words :: |w| >= 2 && Completes(w, past, t)
  }

  lemma {:induction false} LongMaskedNext(words: seq<seq<Token>>, w: seq<Token>, past: seq<Token>, t: Token)
    ensures LongMasked(words + [w], past, t) <==>
              LongMasked(words, past, t) || (|w| >= 2 && PrefixMatches(w, past, t))
  {
    assert forall v :: v in words + [w] <==> v in words || v == w;
    if |w| >= 2 { PrefixTest(w, past, t); }
  }

  // ---------- What a call returns ----------

  /** Every word long enough to be compared with `past` ends in a token below `size`, and no word is empty. */
  predicate LastTokensFit(words: seq<seq<Token>>, past: seq<Token>, size: nat) {
    forall i :: 0 <= i < |words| ==> LastTokenFits(words[i], past, size)
  }

  predicate LastTokenFits(w: seq<Token>, past: seq<Token>, size: nat) {
    w != [] && (2 <= |w| <= |past| + 1 ==> w[|w| - 1] < size)
  }

  function LongBias(words: seq<seq<Token>>, past: seq<Token>, size: nat): seq<Logit> {
    seq(size, t => if LongMasked(words, past, t) then NegInf else NEUTRAL)
  }

  lemma {:induction false} NothingToComplete(past: seq<Token>, size: nat, b: seq<Logit>)
    requires |b| == size && forall t :: 0 <= t < size ==> b[t] == NEUTRAL
    ensures b == LongBias([], past, size)
  {
  }

  /** One more word masks its last token exactly when it is compared and its prefix matches. */
  lemma {:induction false} LongBiasNext(words: seq<seq<Token>>, w: seq<Token>, past: seq<Token>, size: nat)
    ensures var b, b' := LongBias(words, past, size), LongBias(words + [w], past, size);
            && |b'| == |b| == size
            && forall t :: 0 <= t < size ==> b'[t] == if |w| >= 2 && PrefixMatches(w, past, t) then NegInf else b[t]
  {
    forall t: Token
      ensures LongMasked(words + [w], past, t) <==>
                LongMasked(words, past, t) || (|w| >= 2 && PrefixMatches(w, past, t))
    {
      LongMaskedNext(words, w, past, t);
    }
    hide LongMasked, PrefixMatches;
  }

  /** Vectors of these sizes can be added: they are equal, or one of them is 1 and is repeated. */
  predicate Addable(m: nat, n: nat) { m == n || m == 1 || n == 1 }

  function Joined(m: nat, n: nat): nat { if m == 1 then n else m }

  /** Entry `t` of a vector that is repeated if it has one entry only. */
  function At(s: seq<Logit>, t: nat): Logit
    requires |s| == 1 || t < |s|
  {
    if |s| == 1 then s[0] else s[t]
  }

  /** The sum of the logits and both biases. */
  function Added(logits: seq<Logit>, bias: seq<Logit>, last: seq<Logit>): seq<Logit>
    requires Addable(|bias|, |logits|) && |last| == |logits|
  {
    var n := Joined(|bias|, |logits|);
    seq(n, t requires 0 <= t < n => Plus(Plus(At(logits, t), At(bias, t)), At(last, t)))
  }

  /** What the processor returns for `logits` after `past` when its cache is for `vocab` tokens. */
  function Result(words: seq<seq<Token>>, vocab: nat, past: seq<Token>, logits: seq<Logit>): Option<seq<Logit>> {
    var n := |logits|;
    if !InBounds(words, vocab) || !LastTokensFit(words, past, n) || !Addable(vocab, n) then None
    else Some(Added(logits, SingleBias(words, vocab), LongBias(words, past, n)))
  }

  function Processed(words: seq<seq<Token>>, past: seq<Token>, logits: seq<Logit>): seq<Logit> {
    seq(|logits|, t requires 0 <= t < |logits| => if Masked(words, past, t) then NegInf else logits[t])
  }

  lemma {:induction false} SplitMask(words: seq<seq<Token>>, past: seq<Token>, t: Token)
    requires [] !in words
    ensures Masked(words, past, t) <==> [t] in words || LongMasked(words, past, t)
  {
    if [t] in words { SingleTest([t], past, t); }
    if Masked(words, past, t) {
      var w :| w in words && Completes(w, past, t);
      if |w| == 1 { SingleTest(w, past, t); }
    }
  }

  lemma {:induction false} FitsWhenUsable(words: seq<seq<Token>>, past: seq<Token>, vocab: nat)
    requires InBounds(words, vocab)
    ensures LastTokensFit(words, past, vocab) <==> [] !in words
  {
    if [] !in words {
      forall i | 0 <= i < |words| ensures LastTokenFits(words[i], past, vocab) {
        var w := words[i];
        assert w in words && WordInBounds(w, vocab);
        if w != [] { assert 0 <= w[|w| - 1] < vocab; }
      }
    } else {
      var i :| 0 <= i < |words| && words[i] == [];
      assert !LastTokenFits(words[i], past, vocab);
    }
  }

  /** With logits for the vocabulary of the cache, a call fails exactly for words that are empty or
      have tokens outside the vocabulary. Otherwise it masks exactly the tokens that would complete
      a bad word and leaves every other logit alone. */
  lemma {:induction false} ResultExactly(words: seq<seq<Token>>, past: seq<Token>, logits: seq<Logit>)
    ensures Result(words, |logits|, past, logits) ==
              if Usable(words, |logits|) then Some(Processed(words, past, logits)) else None
  {
    var n := |logits|;
    if InBounds(words, n) {
      FitsWhenUsable(words, past, n);
      if [] !in words {
        var r := Result(words, n, past, logits).value;
        forall t | 0 <= t < n ensures r[t] == Processed(words, past, logits)[t] {
          SplitMask(words, past, t);
        }
        assert r == Processed(words, past, logits);
      }
    }
  }

  /** Whatever the sizes, no token that would complete a bad word is left open. */
  lemma {:induction false} ResultMasks(
      words: seq<seq<Token>>, vocab: nat, past: seq<Token>, logits: seq<Logit>, t: Token)
    requires Result(words, vocab, past, logits).Some? && Masked(words, past, t)
    requires 0 <= t < |Result(words, vocab, past, logits).value|
    ensures Result(words, vocab, past, logits).value[t] == NegInf
  {
    var n := |logits|;
    NoEmptyWord(words, past, n);
    SplitMask(words, past, t);
    if [t] in words {
      var i :| 0 <= i < |words| && words[i] == [t];
      assert WordInBounds(words[i], vocab) && words[i][0] == t;
      assert SingleBias(words, vocab)[t] == NegInf;
    } else {
      LongMaskedFits(words, past, n, t);
      assert LongBias(words, past, n)[t] == NegInf;
    }
  }

  /** With a vector of one entry repeated, what stays open keeps its logit: a cached bias for one token
      closes everything or nothing, and so does the bias of longer words for one logit. */
  lemma {:induction false} ResultRepeats(
      words: seq<seq<Token>>, vocab: nat, past: seq<Token>, logits: seq<Logit>, t: Token)
    requires Result(words, vocab, past, logits).Some? && (vocab == 1 || |logits| == 1)
    requires 0 <= t < |Result(words, vocab, past, logits).value|
    ensures |Result(words, vocab, past, logits).value| == if vocab == 1 then |logits| else vocab
    ensures var single, long := if vocab == 1 then 0 else t, if |logits| == 1 then 0 else t;
            Result(words, vocab, past, logits).value[t] ==
              if [single] in words || LongMasked(words, past, long) then NegInf
              else logits[if |logits| == 1 then 0 else t]
  {
    hide LongMasked;
  }

  lemma {:induction false} NoEmptyWord(words: seq<seq<Token>>, past: seq<Token>, size: nat)
    requires LastTokensFit(words, past, size)
    ensures [] !in words
  {
    forall i | 0 <= i < |words| ensures words[i] != [] { assert LastTokenFits(words[i], past, size); }
  }

  lemma {:induction false} LongMaskedFits(words: seq<seq<Token>>, past: seq<Token>, size: nat, t: Token)
    requires LastTokensFit(words, past, size) && LongMasked(words, past, t)
    ensures t < size
  {
    var w :| w in words && |w| >= 2 && Completes(w, past, t);
    PrefixTest(w, past, t);
    var i :| 0 <= i < |words| && words[i] == w;
    assert LastTokenFits(words[i], past, size);
  }

  class NoBadWordsLogitsProcessor {
    const badWords: seq<seq<Token>>
    var wordBias: Option<seq<Logit>>

    /** A cached bias is what would be computed now, and the words passed the bounds check. */
    ghost predicate Valid()
      reads this
    {
      wordBias.Some? ==>
        && InBounds(badWords, |wordBias.value|)
        && wordBias.value == SingleBias(badWords, |wordBias.value|)
    }

    constructor (badWords: seq<seq<Token>>)
      ensures Valid() && wordBias.None? && this.badWords == badWords
    {
      this.badWords, wordBias := badWords, None;
    }

    /** The ids outside the vocabulary; any at all is an error. */
    method CheckTokenIdsBounds(vocab: nat) returns (invalid: seq<Token>)
      ensures invalid == [] <==> InBounds(badWords, vocab)
      ensures forall t :: t in invalid <==> !(0 <= t < vocab) && exists w <- badWords :: t in w
    {
      invalid := [];
      for i := 0 to |badWords|
        invariant invalid == [] <==> forall m :: 0 <= m < i ==> WordInBounds(badWords[m], vocab)
        invariant forall t :: t in invalid <==> !(0 <= t < vocab) && exists m :: 0 <= m < i && t in badWords[m]
      {
        var w := badWords[i];
        ghost var before := invalid;
        for j := 0 to |w|
          invariant invalid == [] <==> before == [] && forall m :: 0 <= m < j ==> 0 <= w[m] < vocab
          invariant forall t :: t in invalid <==> t in before || (!(0 <= t < vocab) && t in w[..j])
        {
          if w[j] < 0 || w[j] >= vocab { invalid := invalid + [w[j]]; }
          assert w[..j + 1] == w[..j] + [w[j]];
        }
        assert w[..|w|] == w;
        assert WordInBounds(w, vocab) <==> forall m :: 0 <= m < |w| ==> 0 <= w[m] < vocab;
      }
    }

    /** Fills the cache, or fails and leaves it empty. */
    method InitWordBias(vocab: nat) returns (ok: bool)
      modifies this`wordBias
      ensures ok <==> InBounds(badWords, vocab)
      ensures ok ==> wordBias == Some(SingleBias(badWords, vocab))
      ensures !ok ==> wordBias == old(wordBias)
    {
      var invalid := CheckTokenIdsBounds(vocab);
      if invalid != [] { return false; }
      var bias := seq(vocab, _ => NEUTRAL);
      for i := 0 to |badWords|
        invariant bias == SingleBias(badWords[..i], vocab)
      {
        var w := badWords[i];
        assert badWords[..i + 1] == badWords[..i] + [w];
        if |w| == 1 {
          assert WordInBounds(w, vocab) && w == [w[0]];
          bias := bias[w[0] := NegInf];
        }
      }
      assert badWords[..|badWords|] == badWords;
      wordBias := Some(bias);
      ok := true;
    }

    /** One word's contribution to the bias of longer words. */
    static method BiasWord(w: seq<Token>, past: seq<Token>, b: seq<Logit>,
                           ghost words: seq<seq<Token>>, ghost vocab: nat)
      returns (r: Option<seq<Logit>>)
      requires WordInBounds(w, vocab) && b == LongBias(words, past, |b|)
      ensures r.Some? <==> LastTokenFits(w, past, |b|)
      ensures r.Some? ==> r.value == LongBias(words + [w], past, |b|)
    {
      hide LongBias;
      LongBiasNext(words, w, past, |b|);
      if |w| == 1 { return Some(b); }
      if |w| > |past| + 1 { return Some(b); }
      if w == [] { return None; }
      var n := |w| - 1;
      var isMatch := past[|past| - n..] == w[..n];
      if w[n] >= |b| { return None; }
      r := Some(b[w[n] := Plus(b[w[n]], if isMatch then NegInf else NEUTRAL)]);
    }

    /** The bias for words of two or more tokens that the next token could complete, as long as
        the logits; fails for an empty word or a last token beyond the logits. */
    method LastTokenBias(past: seq<Token>, size: nat, ghost vocab: nat) returns (bias: Option<seq<Logit>>)
      requires InBounds(badWords, vocab)
      ensures bias.Some? <==> LastTokensFit(badWords, past, size)
      ensures bias.Some? ==> bias.value == LongBias(badWords, past, size)
    {
      hide LongBias, LastTokenFits, WordInBounds;
      var b := seq(size, _ => NEUTRAL);
      NothingToComplete(past, size, b);
      for i := 0 to |badWords|
        invariant |b| == size && forall m :: 0 <= m < i ==> LastTokenFits(badWords[m], past, size)
        invariant b == LongBias(badWords[..i], past, size)
      {
        var w := badWords[i];
        assert badWords[..i + 1] == badWords[..i] + [w];
        LongBiasNext(badWords[..i], w, past, size);
        var next := BiasWord(w, past, b, badWords[..i], vocab);
        if next.None? { return None; }
        b := next.value;
      }
      assert badWords[..|badWords|] == badWords;
      bias := Some(b);
    }

    /** Returns what the specification says for the vocabulary of the cache, which the first call
        that passes the bounds check fills for the length of its logits. */
    method Call(past: seq<Token>, logits: seq<Logit>) returns (r: Option<seq<Logit>>)
      requires Valid()
      modifies this`wordBias
      ensures Valid()
      ensures r == Result(badWords, Vocab(old(wordBias), logits), past, logits)
      ensures wordBias == if old(wordBias).Some? || InBounds(badWords, |logits|)
                          then Some(SingleBias(badWords, Vocab(old(wordBias), logits))) else None
    {
      if wordBias.None? {
        var ok := InitWordBias(|logits|);
        if !ok { return None; }
      }
      var bias, n := wordBias.value, |logits|;
      var last := LastTokenBias(past, n, |bias|);
      if last.None? || !Addable(|bias|, n) { return None; }
      r := Some(Added(logits, bias, last.value));
    }
  }

  /** The vocabulary that a cached bias is for, or will be. */
  function Vocab(cache: Option<seq<Logit>>, logits: seq<Logit>): nat {
    if cache.Some? then |cache.value| else |logits|
  }

  // ---------- Whole runs ----------

  /** The processor answers, and leaves token `t` open to be chosen after `past`. */
  predicate Available(words: seq<seq<Token>>, vocab: nat, past: seq<Token>, logits: seq<Logit>, t: Token) {
    var r := Result(words, vocab, past, logits);
    r.Some? && 0 <= t < |r.value| && r.value[t] != NegInf
  }

  /** Every token of `out` was open to be chosen; `logits[k]` are the model's logits for position `k`. */
  ghost predicate Generated(words: seq<seq<Token>>, vocab: nat, logits: seq<seq<Logit>>, out: seq<Token>) {
    && |logits| == |out|
    && forall k :: 0 <= k < |out| ==> Available(words, vocab, out[..k], logits[k], out[k])
  }

  /** No bad word ever appears in generated text, whatever sizes the logits have. */
  lemma {:induction false} GeneratedIsClean(
      words: seq<seq<Token>>, vocab: nat, logits: seq<seq<Logit>>, out: seq<Token>, w: seq<Token>)
    requires Generated(words, vocab, logits, out)
    requires w in words && w != []
    ensures !Occurs(w, out)
  {
    hide Result;
    forall p: int ensures !OccursAt(w, out, p) {
      if OccursAt(w, out, p) {
        var k := p + |w| - 1;
        CompletedThere(w, out, k);
        assert Available(words, vocab, out[..k], logits[k], out[k]);
        ResultMasks(words, vocab, out[..k], logits[k], out[k]);
        assert false;
      }
    }
  }

  /** A word is completed at position `k` exactly when it occurs ending there. */
  lemma {:induction false} CompletedThere(w: seq<Token>, out: seq<Token>, k: nat)
    requires w != [] && k < |out|
    ensures Completes(w, out[..k], out[k]) <==> OccursAt(w, out, k + 1 - |w|)
  {
    var s, p := out[..k] + [out[k]], k + 1 - |w|;
    if p >= 0 { assert s[|s| - |w|..] == out[p..p + |w|]; }
  }

  /** And nothing else is ruled out: text without bad words can be generated from any finite logits
      for the vocabulary, exactly when the words are usable. */
  lemma {:induction false} CleanCanBeGenerated(
      words: seq<seq<Token>>, vocab: nat, logits: seq<seq<Logit>>, out: seq<Token>)
    requires |logits| == |out| && out != [] && forall k :: 0 <= k < |out| ==> |logits[k]| == vocab
    requires forall k :: 0 <= k < |out| ==> 0 <= out[k] < vocab && logits[k][out[k]].Finite?
    requires forall w <- words :: w != [] ==> !Occurs(w, out)
    ensures Generated(words, vocab, logits, out) <==> Usable(words, vocab)
  {
    hide Result, Usable;
    forall k | 0 <= k < |out|
      ensures Available(words, vocab, out[..k], logits[k], out[k]) <==> Usable(words, vocab)
    {
      ResultExactly(words, out[..k], logits[k]);
      forall w | w in words ensures !Completes(w, out[..k], out[k]) {
        if w != [] { CompletedThere(w, out, k); }
      }
    }
    assert Available(words, vocab, out[..0], logits[0], out[0]) <==> Usable(words, vocab);
  }

  /** A generation loop around one processor, whose cache it reuses: token `choices[k]` is taken
      at step `k` as long as it is available. Whatever is chosen, no bad word comes out. */
  method Generate(p: NoBadWordsLogitsProcessor, logits: seq<seq<Logit>>, choices: seq<Token>)
    returns (out: seq<Token>)
    requires p.Valid() && |logits| == |choices|
    modifies p
    ensures p.Valid() && out <= choices
    ensures choices != [] ==>
              var vocab := Vocab(old(p.wordBias), logits[0]);
              && Generated(p.badWords, vocab, logits[..|out|], out)
              && (|out| < |choices| ==> !Available(p.badWords, vocab, out, logits[|out|], choices[|out|]))
    ensures forall w <- p.badWords :: w != [] ==> !Occurs(w, out)
  {
    out := [];
    if choices == [] { return; }
    ghost var vocab := Vocab(p.wordBias, logits[0]);
    hide Occurs, Result, InBounds, SingleBias;
    var k := 0;
    while k < |choices|
      invariant 0 <= k <= |choices| && out == choices[..k]
      invariant p.Valid()
      invariant (k == 0 && p.wordBias == old(p.wordBias)) || (p.wordBias.Some? && |p.wordBias.value| == vocab)
      invariant Generated(p.badWords, vocab, logits[..k], out)
    {
      var r := p.Call(out, logits[k]);
      var t := choices[k];
      if r.None? || t < 0 || t >= |r.value| || r.value[t].NegInf? { break; }
      CallFillsCache(p.badWords, vocab, out, logits[k]);
      GeneratedNext(p.badWords, vocab, logits[..k], out, logits[k], t);
      assert logits[..k + 1] == logits[..k] + [logits[k]];
      out := out + [t];
      k := k + 1;
    }
    assert logits[..|out|] == logits[..k];
    forall w | w in p.badWords && w != [] ensures !Occurs(w, out) {
      GeneratedIsClean(p.badWords, vocab, logits[..k], out, w);
    }
  }

  lemma {:induction false} CallFillsCache(
      words: seq<seq<Token>>, vocab: nat, past: seq<Token>, logits: seq<Logit>)
    requires Result(words, vocab, past, logits).Some?
    ensures InBounds(words, vocab) && |SingleBias(words, vocab)| == vocab
  {
  }

  lemma {:induction false} GeneratedNext(
      words: seq<seq<Token>>, vocab: nat, logits: seq<seq<Logit>>, out: seq<Token>, next: seq<Logit>, t: Token)
    requires Generated(words, vocab, logits, out) && Available(words, vocab, out, next, t)
    ensures Generated(words, vocab, logits + [next], out + [t])
  {
    hide Available;
    var out', logits' := out + [t], logits + [next];
    forall k | 0 <= k < |out'| ensures Available(words, vocab, out'[..k], logits'[k], out'[k]) {
      if k < |out| { assert out'[..k] == out[..k]; } else { assert out'[..k] == out; }
    }
  }
}
