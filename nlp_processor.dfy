/** `NLPProcessor` without `clean_text` (which is in TextCleaning): the
    stop-word set, stop-word removal, stemming and the `preprocess` chain.
    The NLTK tokenizer and the RSLP stemmer are foreign code and are given
    as functions; the processor never changes after it is built. */
module NlpProcessor {
  import opened Text
  import opened Values
  import opened TextCleaning

  /** The stop-words used when the NLTK corpus cannot be loaded. */
  const BuiltinStopWords: set<string> := {
    "a", "o", "e", "do", "da", "em", "um", "uma", "com", "no", "na",
    "por", "os", "as", "dos", "das", "ou", "para", "\U{e9}", "s\U{e3}o", "foi",
    "era", "eram", "este", "esta", "estes", "estas", "de", "que"
  }

  /** The two built-in stop-words that are not plain ASCII. */
  const AccentedStopWords: set<string> := {"\U{e9}", "s\U{e3}o"}

  /** An `NLPProcessor` after `__init__`: the Unicode tables used by
      `str.lower()` and NFKD, the tokenizer and the stemmer for its language,
      and the stop-word set `_load_stopwords` chose. */
  datatype Processor = Processor(
    tables: CharTables,
    tokenize: string -> seq<string>,
    stem: string -> string,
    stopWords: set<string>)

  /** `_load_stopwords`: the corpus list for the language as a set, or the
      built-in set when reading the corpus raises (`corpus` is `None`). */
  function LoadStopwords(corpus: Option<seq<string>>): (r: set<string>)
    ensures corpus.None? ==> r == BuiltinStopWords
    ensures corpus.Some? ==> forall w :: w in r <==> w in corpus.value
  {
    match corpus
    case None => BuiltinStopWords
    case Some(words) => set w | w in words
  }

  /** `NLPProcessor.__init__`: the stop-words come from the corpus when it
      loads and are the built-in set otherwise. */
  function NewProcessor(tables: CharTables, tokenize: string -> seq<string>, stem: string -> string,
                        corpus: Option<seq<string>>): (r: Processor)
    ensures corpus.None? ==> r.stopWords == BuiltinStopWords
    ensures corpus.Some? ==> forall w :: w in r.stopWords <==> w in corpus.value
  {
    Processor(tables, tokenize, stem, LoadStopwords(corpus))
  }

  /** The test of the list comprehension in `remove_stopwords`. */
  predicate IsStopWord(t: CharTables, stopWords: set<string>, token: string) {
    Lower(t, token) in stopWords
  }

  /** The kept tokens, in their original order: no stop-word is kept. */
  function KeepTokens(t: CharTables, stopWords: set<string>, tokens: seq<string>): (r: seq<string>)
    ensures |r| <= |tokens|
    ensures forall i :: 0 <= i < |r| ==> !IsStopWord(t, stopWords, r[i])
  {
    if tokens == [] then []
    else
      var rest := KeepTokens(t, stopWords, tokens[1..]);
      if IsStopWord(t, stopWords, tokens[0]) then rest else [tokens[0]] + rest
  }

  /** Each token that is not a stop-word is kept exactly as often as it
      occurs, and a stop-word never. */
  lemma {:induction false} KeepTokensCounts(t: CharTables, stopWords: set<string>, tokens: seq<string>)
    ensures forall w :: multiset(KeepTokens(t, stopWords, tokens))[w]
                     == if IsStopWord(t, stopWords, w) then 0 else multiset(tokens)[w]
  {
    if tokens != [] {
      KeepTokensCounts(t, stopWords, tokens[1..]);
      assert tokens == [tokens[0]] + tokens[1..];
    }
  }

  /** Every kept token is one of the input tokens. */
  lemma KeepTokensFromInput(t: CharTables, stopWords: set<string>, tokens: seq<string>)
    ensures forall i :: 0 <= i < |KeepTokens(t, stopWords, tokens)| ==> KeepTokens(t, stopWords, tokens)[i] in tokens
  {
    KeepTokensCounts(t, stopWords, tokens);
    var r := KeepTokens(t, stopWords, tokens);
    forall i | 0 <= i < |r| ensures r[i] in tokens {
      assert multiset(r)[r[i]] > 0;
    }
  }

  /** `r` is `s` with some elements left out, the rest in the same order. */
  predicate IsSubsequence(r: seq<string>, s: seq<string>)
    decreases |s|
  {
    if r == [] then true
    else if s == [] then false
    else (r[0] == s[0] && IsSubsequence(r[1..], s[1..])) || IsSubsequence(r, s[1..])
  }

  /** The kept tokens keep their relative order. */
  lemma {:induction false} KeepTokensInOrder(t: CharTables, stopWords: set<string>, tokens: seq<string>)
    ensures IsSubsequence(KeepTokens(t, stopWords, tokens), tokens)
  {
    if tokens != [] {
      KeepTokensInOrder(t, stopWords, tokens[1..]);
      var rest := KeepTokens(t, stopWords, tokens[1..]);
      if IsStopWord(t, stopWords, tokens[0]) && rest != [] {
        assert IsSubsequence(rest, tokens[1..]);
      } else if !IsStopWord(t, stopWords, tokens[0]) {
        assert ([tokens[0]] + rest)[1..] == rest;
      }
    }
  }

  /** Filtering a concatenation filters each part: together with the
      one-token case this determines the filter completely. */
  lemma {:induction false} KeepTokensAppend(t: CharTables, stopWords: set<string>, a: seq<string>, b: seq<string>)
    ensures KeepTokens(t, stopWords, a + b) == KeepTokens(t, stopWords, a) + KeepTokens(t, stopWords, b)
  {
    if a == [] {
      assert a + b == b;
    } else {
      assert (a + b)[0] == a[0];
      assert (a + b)[1..] == a[1..] + b;
      KeepTokensAppend(t, stopWords, a[1..], b);
      var head := if IsStopWord(t, stopWords, a[0]) then [] else [a[0]];
      AppendAssoc(head, KeepTokens(t, stopWords, a[1..]), KeepTokens(t, stopWords, b));
    }
  }

  lemma AppendAssoc(x: seq<string>, y: seq<string>, z: seq<string>)
    ensures x + (y + z) == (x + y) + z
  {
  }

  /** `NLPProcessor.remove_stopwords`. */
  function RemoveStopwords(p: Processor, text: string): string {
    Join(" ", KeepTokens(p.tables, p.stopWords, p.tokenize(text)))
  }

  /** When the tokenizer yields words (non-empty, without whitespace), the
      output of `remove_stopwords` splits back into exactly the kept tokens. */
  lemma RemoveStopwordsSplits(p: Processor, text: string)
    requires AllWords(p.tokenize(text))
    ensures Split(RemoveStopwords(p, text)) == KeepTokens(p.tables, p.stopWords, p.tokenize(text))
  {
    var tokens := p.tokenize(text);
    var kept := KeepTokens(p.tables, p.stopWords, tokens);
    KeepTokensFromInput(p.tables, p.stopWords, tokens);
    assert AllWords(kept) by {
      forall i | 0 <= i < |kept| ensures IsWord(kept[i]) {
        var j :| 0 <= j < |tokens| && tokens[j] == kept[i];
      }
    }
    SplitJoin(kept);
  }

  /** Entries of a stop-word set that no token lowercases to can be
      dropped from it without changing the filter. */
  lemma {:induction false} UnmatchedStopWords(t: CharTables, stopWords: set<string>, unmatched: set<string>, tokens: seq<string>)
    requires forall i :: 0 <= i < |tokens| ==> Lower(t, tokens[i]) !in unmatched
    ensures KeepTokens(t, stopWords, tokens) == KeepTokens(t, stopWords - unmatched, tokens)
  {
    if tokens != [] {
      UnmatchedStopWords(t, stopWords, unmatched, tokens[1..]);
    }
  }

  /** No ASCII string is one of the accented built-in stop-words. */
  lemma AsciiNotAccented(w: string)
    requires IsAscii(w)
    ensures w !in AccentedStopWords
  {
    if |w| == 1 { assert IsAsciiChar(w[0]); }
    if |w| == 3 { assert IsAsciiChar(w[1]); }
  }

  /** The accented built-in stop-words never match a token that is ASCII,
      as every token of cleaned text is: against such tokens the built-in set
      filters exactly like its ASCII part. */
  lemma AccentedStopWordsNeverMatch(t: CharTables, tokens: seq<string>)
    requires forall i :: 0 <= i < |tokens| ==> IsAscii(tokens[i])
    ensures KeepTokens(t, BuiltinStopWords, tokens) == KeepTokens(t, BuiltinStopWords - AccentedStopWords, tokens)
  {
    forall i | 0 <= i < |tokens| ensures Lower(t, tokens[i]) !in AccentedStopWords {
      AsciiNotAccented(Lower(t, tokens[i]));
    }
    UnmatchedStopWords(t, BuiltinStopWords, AccentedStopWords, tokens);
  }

  /** The stemmed tokens: exactly one per input token, in the same order. */
  function StemTokens(stem: string -> string, tokens: seq<string>): (r: seq<string>)
    ensures |r| == |tokens|
    ensures forall i :: 0 <= i < |r| ==> r[i] == stem(tokens[i])
  {
    if tokens == [] then [] else [stem(tokens[0])] + StemTokens(stem, tokens[1..])
  }

  /** Stemming a concatenation stems each part. */
  lemma StemTokensAppend(stem: string -> string, a: seq<string>, b: seq<string>)
    ensures StemTokens(stem, a + b) == StemTokens(stem, a) + StemTokens(stem, b)
  {
  }

  /** `NLPProcessor.apply_stemming`. */
  function ApplyStemming(p: Processor, text: string): string {
    Join(" ", StemTokens(p.stem, p.tokenize(text)))
  }

  /** When every stem is a word, the output of `apply_stemming` splits back
      into the stems, one per token. */
  lemma ApplyStemmingSplits(p: Processor, text: string)
    requires forall i :: 0 <= i < |p.tokenize(text)| ==> IsWord(p.stem(p.tokenize(text)[i]))
    ensures Split(ApplyStemming(p, text)) == StemTokens(p.stem, p.tokenize(text))
  {
    SplitJoin(StemTokens(p.stem, p.tokenize(text)));
  }

  /** `NLPProcessor.preprocess`: always clean first, then remove stop-words
      if asked, then stem if asked. */
  function Preprocess(p: Processor, text: string, removeStopwordsFlag: bool := true, applyStemmingFlag: bool := true): (r: string)
    ensures !removeStopwordsFlag && !applyStemmingFlag ==> r == CleanText(p.tables, text)
  {
    var cleaned := CleanText(p.tables, text);
    var filtered := if removeStopwordsFlag then RemoveStopwords(p, cleaned) else cleaned;
    if applyStemmingFlag then ApplyStemming(p, filtered) else filtered
  }

  /** Each stage of `preprocess` sees the output of the one before it. */
  lemma PreprocessStages(p: Processor, text: string)
    ensures Preprocess(p, text, true, false) == RemoveStopwords(p, CleanText(p.tables, text))
    ensures Preprocess(p, text, false, true) == ApplyStemming(p, CleanText(p.tables, text))
    ensures Preprocess(p, text) == ApplyStemming(p, RemoveStopwords(p, CleanText(p.tables, text)))
  {
  }
}
