/** Case-insensitive substring matching: the model of the SQL pattern
    `column ILIKE '%q%'` used by the generic search. */
module Text {

  /** ASCII case folding of one character. */
  function Lower(c: char): char
  {
    if 'A' <= c <= 'Z' then (c as int + 32) as char else c
  }

  /** `q` occurs in `text` at offset `i`, ignoring case. */
  ghost predicate MatchesAt(text: string, q: string, i: int)
  {
    0 <= i && i + |q| <= |text| &&
    forall k :: 0 <= k < |q| ==> Lower(text[i + k]) == Lower(q[k])
  }

  /** `q` occurs somewhere in `text`, ignoring case. */
  ghost predicate ContainsIgnoringCase(text: string, q: string)
  {
    exists i :: MatchesAt(text, q, i)
  }

  /** `text` starts with `q`, ignoring case. */
  predicate StartsIgnoringCase(text: string, q: string)
  {
    |q| <= |text| && forall k :: 0 <= k < |q| ==> Lower(text[k]) == Lower(q[k])
  }

  /** Dropping the first character of `text` shifts every occurrence left by one. */
  lemma ShiftedMatch(text: string, q: string, i: int)
    requires |text| > 0 && 0 <= i
    ensures MatchesAt(text[1..], q, i) <==> MatchesAt(text, q, i + 1)
  {
  }

  /** Once `q` is known not to start `text`, its occurrences are those in the tail. */
  lemma ShiftedContains(text: string, q: string)
    requires |text| > 0 && !MatchesAt(text, q, 0)
    ensures ContainsIgnoringCase(text[1..], q) <==> ContainsIgnoringCase(text, q)
  {
    if ContainsIgnoringCase(text[1..], q) {
      var j :| MatchesAt(text[1..], q, j);
      ShiftedMatch(text, q, j);
    }
    if ContainsIgnoringCase(text, q) {
      var i :| MatchesAt(text, q, i);
      ShiftedMatch(text, q, i - 1);
    }
  }

  /** The executable check behind the search: does `q` occur in `text`, ignoring case? */
  function OccursIgnoringCase(text: string, q: string): (b: bool)
    ensures b <==> ContainsIgnoringCase(text, q)
    decreases |text|
  {
    if |q| > |text| then false
    else if StartsIgnoringCase(text, q) then
      assert MatchesAt(text, q, 0);
      true
    else
      ShiftedContains(text, q);
      OccursIgnoringCase(text[1..], q)
  }
}
