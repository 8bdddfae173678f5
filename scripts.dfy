/**
  The script classes the CJK word segmenter consults: the Hangul syllable
  block, the Katakana test used by the run heuristic, the Katakana cost
  table, and the word set that decides which code points an engine handles.
*/
module Scripts {

  /** BreakIterator.KIND_WORD in ICU4J. */
  const KIND_WORD: int := 1

  /** A run of more Katakana than this gets the flat cost 8192. */
  const KATAKANA_MAX_LENGTH: nat := 8
  const KATAKANA_COSTS: seq<int> := [8192, 984, 408, 240, 204, 252, 300, 372, 480]
  const KATAKANA_LONG_COST: int := 8192

  /** The cost of the single-character fallback word (maxSnlp). */
  const MAX_SNLP: int := 255

  /** Cost of treating a Katakana run of `wordLength` characters as one word. */
  function KatakanaCost(wordLength: nat): (cost: int)
    ensures 204 <= cost <= KATAKANA_LONG_COST
    ensures wordLength > KATAKANA_MAX_LENGTH || wordLength == 0 <==> cost == KATAKANA_LONG_COST
  {
    if wordLength > KATAKANA_MAX_LENGTH then KATAKANA_LONG_COST else KATAKANA_COSTS[wordLength]
  }

  /**
    Grouping a Katakana run of n characters beats n single-character
    fallback words exactly for runs of 2 to 8 characters (for every run
    length the heuristic considers).
  */
  lemma {:induction false} GroupingBeatsFallback(n: nat)
    requires 1 <= n < 20
    ensures KatakanaCost(n) < n * MAX_SNLP <==> 2 <= n <= KATAKANA_MAX_LENGTH
  {
    if n <= KATAKANA_MAX_LENGTH {
      assert KatakanaCost(n) == KATAKANA_COSTS[n];
    } else {
      assert n * MAX_SNLP < 20 * 255;
    }
  }

  /** Full-width Katakana except the middle dot U+30FB, and half-width Katakana. */
  predicate IsKatakana(value: int) {
    (0x30A1 <= value <= 0x30FE && value != 0x30FB) ||
    (0xFF66 <= value <= 0xFF9F)
  }

  /** The Hangul word set: the syllable block U+AC00..U+D7A3. */
  predicate IsHangulSyllable(c: int) {
    0xAC00 <= c <= 0xD7A3
  }

  /**
    No Hangul syllable passes the Katakana test, so the fallback exemption
    for Hangul and the Katakana run heuristic never concern one character.
  */
  lemma HangulIsNotKatakana(c: int)
    ensures IsHangulSyllable(c) ==> !IsKatakana(c)
  {
  }

  /**
    The Unicode property sets the engine is built from: Han, Katakana and
    Hiragana. They come from the Unicode character database and are taken
    as given predicates.
  */
  datatype ScriptSets = ScriptSets(han: int -> bool, katakana: int -> bool, hiragana: int -> bool)

  /** [[:Katakana:]ﾞﾟ]: the Katakana property plus the two half-width sound marks. */
  predicate InKatakanaWordSet(sets: ScriptSets, c: int) {
    sets.katakana(c) || c == 0xFF9E || c == 0xFF9F
  }

  /**
    The word set of an engine: Hangul syllables for the Korean variant,
    otherwise Han, Katakana and Hiragana. The extra element the non-Korean
    set receives is a multi-character string, which never equals a single
    code point, so it does not change membership of code points.
  */
  predicate InWordSet(korean: bool, sets: ScriptSets, c: int) {
    if korean then IsHangulSyllable(c)
    else sets.han(c) || InKatakanaWordSet(sets, c) || sets.hiragana(c)
  }

  /** CjkBreakEngine.handles: word-break requests for code points of the word set. */
  function Handles(korean: bool, sets: ScriptSets, c: int, breakType: int): (r: bool)
    ensures r ==> breakType == KIND_WORD
    ensures korean ==> (r <==> breakType == KIND_WORD && 0xAC00 <= c <= 0xD7A3)
    ensures !korean && breakType == KIND_WORD && (c == 0xFF9E || c == 0xFF9F) ==> r
    ensures !korean ==> (r <==> breakType == KIND_WORD && (sets.han(c) || sets.katakana(c) || sets.hiragana(c) || c == 0xFF9E || c == 0xFF9F))
  {
    breakType == KIND_WORD && InWordSet(korean, sets, c)
  }
}
