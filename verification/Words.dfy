/** The words of a text, in bytes or in characters. */
module Words {

  /** ASCII white space. */
  predicate IsSpaceCode(code: int) {
    9 <= code <= 13 || code == 32
  }

  /** How much of the text comes before its first space. */
  function WordLength<T>(space: T -> bool, s: seq<T>): (n: nat)
    ensures n <= |s|
    ensures s != [] && !space(s[0]) ==> n > 0
  {
    if s == [] || space(s[0]) then 0 else WordLength(space, s[1..]) + 1
  }

  /** The words of the text, in order. */
  function WordsOf<T>(space: T -> bool, s: seq<T>): seq<seq<T>> {
    if s == [] then []
    else if space(s[0]) then WordsOf(space, s[1..])
    else
      var n := WordLength(space, s);
      [s[..n]] + WordsOf(space, s[n..])
  }

  /** The first `c` splits a text. */
  lemma SplitsAtFirst<T>(c: T, a: seq<T>, b: seq<T>, x: seq<T>, y: seq<T>)
    requires c !in a && c !in x && a + [c] + b == x + [c] + y
    ensures a == x && b == y
  {
    var s, n, m := a + [c] + b, |a|, |x|;
    assert s[n] == c && s[m] == c;
    assert forall i :: 0 <= i < n ==> s[i] == a[i] && s[i] != c;
    assert forall i :: 0 <= i < m ==> s[i] == x[i] && s[i] != c;
    assert n == m;
    assert s[..n] == a && s[..m] == x && s[n + 1..] == b && s[m + 1..] == y;
  }

  // ----- joining words -----

  /** Words have something in them, and no space. */
  predicate AreWords<T>(space: T -> bool, words: seq<seq<T>>) {
    forall i :: 0 <= i < |words| ==> words[i] != [] && forall k :: 0 <= k < |words[i]| ==> !space(words[i][k])
  }

  /** The words with one `blank` between them. */
  function Joined<T>(blank: T, words: seq<seq<T>>): seq<T> {
    if words == [] then []
    else if |words| == 1 then words[0]
    else words[0] + [blank] + Joined(blank, words[1..])
  }

  lemma {:induction false} WordLengthIs<T>(space: T -> bool, w: seq<T>, more: seq<T>)
    requires (forall i :: 0 <= i < |w| ==> !space(w[i])) && (more != [] ==> space(more[0]))
    ensures WordLength(space, w + more) == |w|
  {
    if w == [] {
      assert w + more == more;
    } else {
      assert (w + more)[1..] == w[1..] + more;
      WordLengthIs(space, w[1..], more);
    }
  }

  lemma {:induction false} WordHasNoSpace<T>(space: T -> bool, s: seq<T>)
    ensures forall i :: 0 <= i < WordLength(space, s) ==> !space(s[i])
  {
    if s != [] && !space(s[0]) {
      WordHasNoSpace(space, s[1..]);
      assert forall i :: 0 < i < WordLength(space, s) ==> s[i] == s[1..][i - 1];
    }
  }

  lemma {:induction false} WordsOfAreWords<T>(space: T -> bool, s: seq<T>)
    ensures AreWords(space, WordsOf(space, s))
    decreases |s|
  {
    if s != [] {
      if space(s[0]) {
        WordsOfAreWords(space, s[1..]);
      } else {
        WordHasNoSpace(space, s);
        WordsOfAreWords(space, s[WordLength(space, s)..]);
      }
    }
  }

  lemma {:induction false} WordsOfJoined<T>(space: T -> bool, blank: T, words: seq<seq<T>>)
    requires space(blank) && AreWords(space, words)
    ensures WordsOf(space, Joined(blank, words)) == words
  {
    if words != [] {
      var w, rest := words[0], words[1..];
      if |words| == 1 {
        OneWord(space, w, []);
        assert w + [] == w && words == [w];
      } else {
        WordsOfJoined(space, blank, rest);
        var more := [blank] + Joined(blank, rest);
        OneWord(space, w, more);
        assert w + [blank] + Joined(blank, rest) == w + more;
        assert more[1..] == Joined(blank, rest);
        assert words == [w] + rest;
      }
    }
  }

  lemma OneWord<T>(space: T -> bool, w: seq<T>, more: seq<T>)
    requires w != [] && (forall i :: 0 <= i < |w| ==> !space(w[i])) && (more != [] ==> space(more[0]))
    ensures WordsOf(space, w + more) == [w] + WordsOf(space, more)
  {
    WordLengthIs(space, w, more);
    assert (w + more)[..|w|] == w && (w + more)[|w|..] == more;
  }
}
