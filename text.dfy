/** The string operations the match extraction relies on, as Python defines
    them for `str`: `strip()`, `split(sep)`, `sep.join(parts)`, a
    case-insensitive substring search, and the name normaliser of
    analysis.py:49-51, which splits a name at ", ", reverses the pieces and
    joins them with a space. */
module Text {
  import opened Options

  /** Python's `str.isspace`: the characters `str.strip()` removes. */
  predicate IsSpace(c: char) {
    ('\t' <= c <= '\r') || ('\U{1C}' <= c <= ' ') || c == '\U{85}' || c == '\U{A0}'
    || c == '\U{1680}' || ('\U{2000}' <= c <= '\U{200A}') || c == '\U{2028}' || c == '\U{2029}'
    || c == '\U{202F}' || c == '\U{205F}' || c == '\U{3000}'
  }

  /** `s` without its leading whitespace. */
  function TrimStart(s: string): string {
    if s != [] && IsSpace(s[0]) then TrimStart(s[1..]) else s
  }

  /** `s` without its trailing whitespace. */
  function TrimEnd(s: string): string {
    if s != [] && IsSpace(s[|s| - 1]) then TrimEnd(s[..|s| - 1]) else s
  }

  /** Python's `s.strip()`. */
  function Strip(s: string): string {
    TrimEnd(TrimStart(s))
  }

  /** TrimStart removes exactly the whitespace run at the front. */
  lemma {:induction false} TrimStartSpec(s: string)
    ensures |TrimStart(s)| <= |s| && TrimStart(s) == s[|s| - |TrimStart(s)|..]
    ensures TrimStart(s) == [] || !IsSpace(TrimStart(s)[0])
    ensures forall i :: 0 <= i < |s| - |TrimStart(s)| ==> IsSpace(s[i])
    decreases |s|
  {
    if s != [] && IsSpace(s[0]) {
      TrimStartSpec(s[1..]);
    }
  }

  /** TrimEnd removes exactly the whitespace run at the back. */
  lemma {:induction false} TrimEndSpec(s: string)
    ensures |TrimEnd(s)| <= |s| && TrimEnd(s) == s[..|TrimEnd(s)|]
    ensures TrimEnd(s) == [] || !IsSpace(TrimEnd(s)[|TrimEnd(s)| - 1])
    ensures forall i :: |TrimEnd(s)| <= i < |s| ==> IsSpace(s[i])
    decreases |s|
  {
    if s != [] && IsSpace(s[|s| - 1]) {
      TrimEndSpec(s[..|s| - 1]);
    }
  }

  /** `s.strip()` is the slice of `s` left when the whitespace at both ends
      is cut off: it neither starts nor ends with whitespace, and everything
      of `s` before and after it is whitespace. */
  lemma StripSpec(s: string)
    ensures var r, i := Strip(s), |s| - |TrimStart(s)|;
      && 0 <= i && i + |r| <= |s| && r == s[i..i + |r|]
      && (r == [] || (!IsSpace(r[0]) && !IsSpace(r[|r| - 1])))
      && (forall k :: 0 <= k < i ==> IsSpace(s[k]))
      && (forall k :: i + |r| <= k < |s| ==> IsSpace(s[k]))
  {
    var t := TrimStart(s);
    TrimStartSpec(s);
    TrimEndSpec(t);
    var r, i := Strip(s), |s| - |t|;
    forall k | i + |r| <= k < |s| ensures IsSpace(s[k]) {
      assert s[k] == t[k - i];
    }
  }

  /** A string with no whitespace at either end is its own strip. */
  lemma StripTrimmed(s: string)
    requires s == [] || (!IsSpace(s[0]) && !IsSpace(s[|s| - 1]))
    ensures Strip(s) == s
  {
  }

  /** Stripping twice is stripping once. */
  lemma StripIdempotent(s: string)
    ensures Strip(Strip(s)) == Strip(s)
  {
    StripSpec(s);
    StripTrimmed(Strip(s));
  }

  // ---------------------------------------------------------------------
  // Substring search, `split` and `join`
  // ---------------------------------------------------------------------

  /** `sep` occurs in `s` starting at index `i`. */
  predicate OccursAt(s: string, sep: string, i: int) {
    0 <= i && i + |sep| <= |s| && s[i..i + |sep|] == sep
  }

  /** The first index at or after `from` where `sep` occurs in `s`. */
  function FindFrom(s: string, sep: string, from: nat): (r: Option<nat>)
    requires from <= |s|
    ensures r.Some? ==> from <= r.value && OccursAt(s, sep, r.value)
    ensures r.Some? ==> forall j :: from <= j < r.value ==> !OccursAt(s, sep, j)
    ensures r.None? ==> forall j :: from <= j ==> !OccursAt(s, sep, j)
    decreases |s| - from
  {
    if from + |sep| > |s| then None
    else if s[from..from + |sep|] == sep then Some(from)
    else FindFrom(s, sep, from + 1)
  }

  /** Python's `sep in s`. */
  predicate Contains(s: string, sep: string) {
    FindFrom(s, sep, 0).Some?
  }

  /** A prefix of `s` that ends before the first occurrence of `sep` does not contain `sep`. */
  lemma PrefixBeforeFirstOccurrence(s: string, sep: string, i: nat)
    requires sep != [] && i <= |s|
    requires forall j :: 0 <= j < i ==> !OccursAt(s, sep, j)
    ensures !Contains(s[..i], sep)
  {
    var p := s[..i];
    var r := FindFrom(p, sep, 0);
    if r.Some? {
      var j := r.value;
      assert p[j..j + |sep|] == s[j..j + |sep|];
      assert OccursAt(s, sep, j);
      assert false;
    }
  }

  /** Python's `s.split(sep)` for a non-empty separator: the pieces between
      the occurrences of `sep`, found left to right without overlap. */
  function Split(s: string, sep: string): (parts: seq<string>)
    requires sep != []
    decreases |s|
  {
    match FindFrom(s, sep, 0)
    case None => [s]
    case Some(i) => [s[..i]] + Split(s[i + |sep|..], sep)
  }

  /** `split` scans left to right: the first piece ends at the first
      occurrence of the separator (no occurrence starts inside it, and there
      is a second piece exactly when the separator follows it), and the
      remaining pieces are the split of what follows that occurrence.
      Applied piece by piece, this fixes every piece, also for a separator
      that can overlap itself such as "aa" in "aaaaa"; for ", ", which
      cannot, `SplitJoin` alone already fixes the pieces. */
  lemma SplitFirstPiece(s: string, sep: string)
    requires sep != []
    ensures |Split(s, sep)| >= 1
    ensures var first := Split(s, sep)[0];
      && |first| <= |s| && first == s[..|first|]
      && (forall j :: 0 <= j < |first| ==> !OccursAt(s, sep, j))
      && (|Split(s, sep)| > 1 <==> OccursAt(s, sep, |first|))
    ensures var first := Split(s, sep)[0];
      |Split(s, sep)| > 1 ==> |first| + |sep| <= |s| && Split(s, sep)[1..] == Split(s[|first| + |sep|..], sep)
  {
    match FindFrom(s, sep, 0)
    case None =>
    case Some(i) =>
      assert Split(s, sep)[0] == s[..i] && |s[..i]| == i;
  }

  /** `split` and `join` are inverse: joining the pieces with the separator
      gives back the string, and no piece contains the separator. */
  lemma {:induction false} SplitJoin(s: string, sep: string)
    requires sep != []
    ensures |Split(s, sep)| >= 1
    ensures forall k :: 0 <= k < |Split(s, sep)| ==> !Contains(Split(s, sep)[k], sep)
    ensures Join(Split(s, sep), sep) == s
    decreases |s|
  {
    match FindFrom(s, sep, 0)
    case None =>
    case Some(i) =>
      var head, tail := s[..i], s[i + |sep|..];
      var rest := Split(tail, sep);
      PrefixBeforeFirstOccurrence(s, sep, i);
      SplitJoin(tail, sep);
      assert Split(s, sep) == [head] + rest;
      assert ([head] + rest)[1..] == rest;
      assert Join([head] + rest, sep) == head + sep + Join(rest, sep);
      assert s == head + sep + tail;
      forall k | 0 <= k < |[head] + rest| ensures !Contains(([head] + rest)[k], sep) {
        if k > 0 { assert ([head] + rest)[k] == rest[k - 1]; }
      }
  }

  /** Python's `sep.join(parts)`. */
  function Join(parts: seq<string>, sep: string): (s: string)
  {
    if |parts| == 0 then []
    else if |parts| == 1 then parts[0]
    else parts[0] + sep + Join(parts[1..], sep)
  }

  /** Python's `reversed(xs)`, as a sequence. */
  function Reversed<T>(xs: seq<T>): (r: seq<T>)
    ensures |r| == |xs|
    ensures forall i :: 0 <= i < |xs| ==> r[i] == xs[|xs| - 1 - i]
  {
    if xs == [] then [] else Reversed(xs[1..]) + [xs[0]]
  }

  // ---------------------------------------------------------------------
  // Case-insensitive search
  // ---------------------------------------------------------------------

  /** ASCII lower-casing. */
  function Lower(c: char): (l: char)
    ensures ('A' <= c <= 'Z') ==> 'a' <= l <= 'z' && l as int == c as int + 32
    ensures !('A' <= c <= 'Z') ==> l == c
  {
    if 'A' <= c <= 'Z' then (c as int + 32) as char else c
  }

  /** `pat` occurs in `s` at index `i` when letter case is ignored. */
  predicate MatchesAtIgnoreCase(s: string, pat: string, i: int) {
    0 <= i && i + |pat| <= |s| && forall k :: 0 <= k < |pat| ==> Lower(s[i + k]) == Lower(pat[k])
  }

  /** Whether `pat` occurs in `s` at index `from` or later, ignoring case. */
  function ContainsIgnoreCaseFrom(s: string, pat: string, from: nat): (b: bool)
    requires from <= |s|
    ensures b <==> exists i :: from <= i && MatchesAtIgnoreCase(s, pat, i)
    decreases |s| - from
  {
    if from + |pat| > |s| then false
    else if forall k :: 0 <= k < |pat| ==> Lower(s[from + k]) == Lower(pat[k]) then
      assert MatchesAtIgnoreCase(s, pat, from);
      true
    else ContainsIgnoreCaseFrom(s, pat, from + 1)
  }

  /** The search `str.contains(pat, case=False)` performs for one literal word. */
  predicate ContainsIgnoreCase(s: string, pat: string) {
    ContainsIgnoreCaseFrom(s, pat, 0)
  }

  // ---------------------------------------------------------------------
  // Name normalisation
  // ---------------------------------------------------------------------

  /** The separator between surname and given name in the round sheets. */
  const NameSeparator := ", "

  /** analysis.py turns "Last, First" into "First Last" by splitting on
      ", ", reversing the pieces and joining them with a space. */
  function NormaliseName(name: string): string {
    Join(Reversed(Split(name, NameSeparator)), " ")
  }

  /** A name without ", " is left as it is. */
  lemma NormaliseWithoutSeparator(name: string)
    requires !Contains(name, NameSeparator)
    ensures NormaliseName(name) == name
  {
    assert Split(name, NameSeparator) == [name];
  }

  /** "Last, First", with neither part holding ", ", becomes "First Last". */
  lemma {:induction false} NormaliseLastFirst(last: string, first: string)
    requires !Contains(last, NameSeparator) && !Contains(first, NameSeparator)
    ensures NormaliseName(last + NameSeparator + first) == first + " " + last
  {
    var s := last + NameSeparator + first;
    var n := |last|;
    forall j | 0 <= j < n
      ensures !OccursAt(s, NameSeparator, j)
    {
      if j + 2 <= n {
        assert s[j..j + 2] == last[j..j + 2];
        assert OccursAt(s, NameSeparator, j) ==> OccursAt(last, NameSeparator, j);
      } else {
        assert s[j + 1] == ',' && s[j..j + 2][1] == s[j + 1];
      }
    }
    assert OccursAt(s, NameSeparator, n);
    assert FindFrom(s, NameSeparator, 0) == Some(n);
    assert s[..n] == last && s[n + 2..] == first;
    assert Split(first, NameSeparator) == [first];
    assert Split(s, NameSeparator) == [last, first];
    assert Reversed([last, first]) == [first, last];
    assert [first, last][1..] == [last];
    assert Join([first, last], " ") == first + " " + Join([last], " ");
  }
}
