/**
 * The one piece of `generate_explanation_from_chatgpt` that is computed locally: the
 * word is put in lower case and stripped before it goes into the prompt.
 */
module Generator {
  import opened Text

  /** `word.lower().strip()`. */
  function NormalizeWord(word: string): string
  {
    Strip(Lower(word))
  }

  /** The prompt's word has no ASCII capital, no whitespace at either end, and is no
      longer than the stored word. */
  lemma NormalizedShape(word: string)
    ensures var w := NormalizeWord(word);
      (forall k :: 0 <= k < |w| ==> !('A' <= w[k] <= 'Z')) &&
      (w == [] || (!IsSpace(w[0]) && !IsSpace(w[|w| - 1]))) &&
      |w| <= |word|
  {
    var l := Lower(word);
    StripIsSlice(l);
    var i := |l| - |TrimStart(l)|;
    var w := Strip(l);
    forall k | 0 <= k < |w| ensures !('A' <= w[k] <= 'Z') {
      assert w[k] == l[i + k] == ToLower(word[i + k]);
    }
  }

  /** Normalizing twice is normalizing once. */
  lemma NormalizeIdempotent(word: string)
    ensures NormalizeWord(NormalizeWord(word)) == NormalizeWord(word)
  {
    var w := NormalizeWord(word);
    NormalizedShape(word);
    LowerFixed(w);
    StripFixed(w);
  }

  /** Case mapping neither makes nor unmakes whitespace. */
  lemma LowerKeepsSpace(c: char)
    ensures IsSpace(ToLower(c)) == IsSpace(c)
  {
  }

  lemma {:induction false} LowerTrimStart(s: string)
    ensures Lower(TrimStart(s)) == TrimStart(Lower(s))
    decreases |s|
  {
    if s != [] {
      LowerKeepsSpace(s[0]);
      assert Lower(s)[1..] == Lower(s[1..]);
      if IsSpace(s[0]) {
        LowerTrimStart(s[1..]);
      }
    }
  }

  lemma {:induction false} LowerTrimEnd(s: string)
    ensures Lower(TrimEnd(s)) == TrimEnd(Lower(s))
    decreases |s|
  {
    if s != [] {
      LowerKeepsSpace(s[|s| - 1]);
      assert Lower(s)[..|s| - 1] == Lower(s[..|s| - 1]);
      if IsSpace(s[|s| - 1]) {
        LowerTrimEnd(s[..|s| - 1]);
      }
    }
  }

  /** Lowering and stripping commute, so the order at the call site does not matter. */
  lemma StripLowerCommute(word: string)
    ensures NormalizeWord(word) == Lower(Strip(word))
  {
    LowerTrimStart(word);
    LowerTrimEnd(TrimStart(word));
  }

  /** The page title is `word.lower()` of the word as stored, not stripped: it equals the
      word sent in the prompt exactly when the lowered word has no surrounding whitespace. */
  lemma TitleMatchesPromptWord(word: string)
    ensures NormalizeWord(word) == Lower(word) <==>
      (Lower(word) == [] || (!IsSpace(Lower(word)[0]) && !IsSpace(Lower(word)[|word| - 1])))
  {
    var l := Lower(word);
    if l == [] || (!IsSpace(l[0]) && !IsSpace(l[|l| - 1])) {
      StripFixed(l);
    }
  }
}
