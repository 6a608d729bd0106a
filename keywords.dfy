/**
 * The fixed list of risky keywords both audit handlers test, and the array
 * operations they apply to it (`some`, `find`, `filter`, `every`), each over
 * a list of words and a text.  Each operation is a plain definition; the
 * lemma after it states what it computes.
 */
module Keywords {
  import opened Options
  import opened Text

  /** The six risky keywords, in the order both handlers list them. */
  const RiskyKeywords: seq<string> := ["refund", "discount", "free", "guarantee", "cancel", "promise"]

  /** Some risky keyword occurs in `text`. */
  ghost predicate MentionsKeyword(text: string) {
    exists i :: 0 <= i < |RiskyKeywords| && Occurs(RiskyKeywords[i], text)
  }

  /** `kws.some(word => text.includes(word))`. */
  function AnyMatch(kws: seq<string>, text: string): bool {
    if kws == [] then false else Includes(text, kws[0]) || AnyMatch(kws[1..], text)
  }

  lemma {:induction false} AnyMatchMeaning(kws: seq<string>, text: string)
    ensures AnyMatch(kws, text) <==> exists i :: 0 <= i < |kws| && Occurs(kws[i], text)
  {
    if kws != [] {
      AnyMatchMeaning(kws[1..], text);
      assert forall i :: 1 <= i < |kws| ==> kws[i] == kws[1..][i - 1];
    }
  }

  /** `kws[j]` is the first word of `kws`, in list order, that occurs in `text`. */
  ghost predicate IsFirstMatch(kws: seq<string>, text: string, j: int) {
    0 <= j < |kws| && Occurs(kws[j], text) &&
    forall i :: 0 <= i < j ==> !Occurs(kws[i], text)
  }

  /** There is at most one first match. */
  lemma FirstMatchUnique(kws: seq<string>, text: string, j: int, k: int)
    requires IsFirstMatch(kws, text, j) && IsFirstMatch(kws, text, k)
    ensures j == k
  {
  }

  /** `kws.find(word => text.includes(word))`. */
  function FirstMatch(kws: seq<string>, text: string): Option<string> {
    if kws == [] then None
    else if Includes(text, kws[0]) then Some(kws[0])
    else FirstMatch(kws[1..], text)
  }

  /** `find` yields nothing exactly when no word occurs, and otherwise the
      first word, in list order, that occurs in `text`. */
  lemma {:induction false} FirstMatchMeaning(kws: seq<string>, text: string)
    ensures FirstMatch(kws, text).None? <==> forall i :: 0 <= i < |kws| ==> !Occurs(kws[i], text)
    ensures FirstMatch(kws, text).Some? ==>
      exists j :: IsFirstMatch(kws, text, j) && kws[j] == FirstMatch(kws, text).value
  {
    if kws != [] {
      if Includes(text, kws[0]) {
        assert IsFirstMatch(kws, text, 0);
      } else {
        FirstMatchMeaning(kws[1..], text);
        assert forall i :: 1 <= i < |kws| ==> kws[i] == kws[1..][i - 1];
        if FirstMatch(kws[1..], text).Some? {
          var j :| IsFirstMatch(kws[1..], text, j) && kws[1..][j] == FirstMatch(kws[1..], text).value;
          assert IsFirstMatch(kws, text, j + 1);
        }
      }
    }
  }

  /** `kws.filter(word => text.includes(word))`. */
  function Matching(kws: seq<string>, text: string): seq<string> {
    if kws == [] then []
    else (if Includes(text, kws[0]) then [kws[0]] else []) + Matching(kws[1..], text)
  }

  /** `filter` keeps exactly the words of `kws` that occur in `text`, and no more of them. */
  lemma {:induction false} MatchingMeaning(kws: seq<string>, text: string)
    ensures |Matching(kws, text)| <= |kws|
    ensures forall w :: w in Matching(kws, text) <==> w in kws && Occurs(w, text)
  {
    if kws != [] {
      MatchingMeaning(kws[1..], text);
      assert forall w :: w in kws <==> w == kws[0] || w in kws[1..];
    }
  }

  /** `ws.every(word => source.includes(word))`. */
  function AllIncluded(ws: seq<string>, source: string): bool {
    if ws == [] then true else Includes(source, ws[0]) && AllIncluded(ws[1..], source)
  }

  lemma {:induction false} AllIncludedMeaning(ws: seq<string>, source: string)
    ensures AllIncluded(ws, source) <==> forall i :: 0 <= i < |ws| ==> Occurs(ws[i], source)
  {
    if ws != [] {
      AllIncludedMeaning(ws[1..], source);
      assert forall i :: 1 <= i < |ws| ==> ws[i] == ws[1..][i - 1];
    }
  }

  /** `kws.filter(...).every(...)`: every word of `kws` that occurs in
      `text` also occurs in `source`. */
  lemma FilterEveryMeaning(kws: seq<string>, text: string, source: string)
    ensures AllIncluded(Matching(kws, text), source) <==>
      forall i :: 0 <= i < |kws| && Occurs(kws[i], text) ==> Occurs(kws[i], source)
  {
    var found := Matching(kws, text);
    MatchingMeaning(kws, text);
    AllIncludedMeaning(found, source);
    assert forall i :: 0 <= i < |kws| && Occurs(kws[i], text) ==> kws[i] in found;
    assert forall k :: 0 <= k < |found| ==> found[k] in kws;
  }

  /** The text a template literal `${...}` renders for the result of `find`:
      the word found, or `undefined` when nothing was found. */
  function Interpolate(found: Option<string>): string {
    match found
    case Some(w) => w
    case None => "undefined"
  }

  /** None of the keywords occurs in the empty text. */
  lemma NoKeywordInEmptyText()
    ensures forall i :: 0 <= i < |RiskyKeywords| ==> !Occurs(RiskyKeywords[i], "")
  {
    forall i | 0 <= i < |RiskyKeywords|
      ensures !Occurs(RiskyKeywords[i], "")
    {
      assert |RiskyKeywords[i]| > 0;
    }
  }

  /** Every keyword is already lower case, so testing a lower-cased text for
      it is a case-insensitive test. */
  lemma KeywordsAreLowerCase()
    ensures forall i :: 0 <= i < |RiskyKeywords| ==> ToLower(RiskyKeywords[i]) == RiskyKeywords[i]
  {
    forall i | 0 <= i < |RiskyKeywords|
      ensures ToLower(RiskyKeywords[i]) == RiskyKeywords[i]
    {
      ToLowerFixesLowerCase(RiskyKeywords[i]);
    }
  }
}
