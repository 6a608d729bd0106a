/**
 * The two string operations the audit handlers rely on: lower-casing
 * (`String.prototype.toLowerCase`) and substring containment
 * (`String.prototype.includes`).  Lower-casing is modelled on ASCII letters.
 */
module Text {

  predicate IsUpper(c: char) {
    'A' <= c <= 'Z'
  }

  /** Lower-cases one ASCII letter and leaves every other character alone. */
  function LowerChar(c: char): (d: char)
    ensures !IsUpper(d)
    ensures IsUpper(c) ==> d as int == c as int + 32
    ensures !IsUpper(c) ==> d == c
  {
    if IsUpper(c) then (c as int + 32) as char else c
  }

  /** `s.toLowerCase()`: same length, no upper-case letter left, and each
      character lower-cased on its own, in place. */
  function ToLower(s: string): (r: string)
    ensures |r| == |s|
    ensures forall i :: 0 <= i < |r| ==> !IsUpper(r[i])
    ensures forall i :: 0 <= i < |s| ==> r[i] == LowerChar(s[i])
  {
    seq(|s|, i requires 0 <= i < |s| => LowerChar(s[i]))
  }

  /** Reference meaning of containment: `word` is a contiguous slice of `text`. */
  ghost predicate Occurs(word: string, text: string) {
    exists i :: OccursAt(word, text, i)
  }

  /** `word` starts at position `i` of `text`. */
  ghost predicate OccursAt(word: string, text: string, i: int) {
    0 <= i && i + |word| <= |text| && text[i..i + |word|] == word
  }

  /** `text.includes(word)`, scanning from the left. */
  function Includes(text: string, word: string): (r: bool)
    ensures r <==> Occurs(word, text)
    decreases |text|
  {
    if |word| > |text| then false
    else if text[..|word|] == word then assert OccursAt(word, text, 0); true
    else
      OccursShift(text, word);
      Includes(text[1..], word)
  }

  /** When `word` is not a prefix of `text`, it occurs in `text` exactly when
      it occurs in `text` without its first character. */
  lemma OccursShift(text: string, word: string)
    requires |word| <= |text| && text[..|word|] != word
    ensures Occurs(word, text) <==> Occurs(word, text[1..])
  {
    if Occurs(word, text) {
      var i :| OccursAt(word, text, i);
      assert i != 0;
      assert text[1..][i - 1..i - 1 + |word|] == word;
      assert OccursAt(word, text[1..], i - 1);
    }
    if Occurs(word, text[1..]) {
      var i :| OccursAt(word, text[1..], i);
      assert text[i + 1..i + 1 + |word|] == word;
      assert OccursAt(word, text, i + 1);
    }
  }

  /** Lower-casing commutes with taking a slice. */
  lemma ToLowerSlice(s: string, i: int, j: int)
    requires 0 <= i <= j <= |s|
    ensures ToLower(s)[i..j] == ToLower(s[i..j])
  {
    var t := s[i..j];
    assert forall k :: 0 <= k < j - i ==> t[k] == s[i + k];
  }

  /** Matching on lower-cased strings is case-insensitive: an occurrence of
      `word` in `text` survives lower-casing both. */
  lemma OccursLowered(word: string, text: string)
    requires Occurs(word, text)
    ensures Occurs(ToLower(word), ToLower(text))
  {
    var i :| OccursAt(word, text, i);
    ToLowerSlice(text, i, i + |word|);
    assert OccursAt(ToLower(word), ToLower(text), i);
  }

  /** A string without upper-case letters is its own lower-case form. */
  lemma ToLowerFixesLowerCase(s: string)
    requires forall i :: 0 <= i < |s| ==> !IsUpper(s[i])
    ensures ToLower(s) == s
  {
  }
}
