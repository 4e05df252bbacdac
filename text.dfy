/**
 * Character-level helpers for Python 2 byte strings: `string.punctuation`,
 * `str.lower`, `str.strip`, `str.find`, and the literal whole-word pattern
 * `\bW\b` as `re.search` and `re.split` use it.
 */
module Text {
  import opened Wrappers

  /** Python's `string.punctuation`. */
  const PUNCTUATION: string := "!\"#$%&'()*+,-./:;<=>?@[\\]^_`{|}~"

  predicate IsUpper(c: char) { 'A' <= c <= 'Z' }

  /** `str.lower` on a byte string changes the ASCII capitals only: the result
      is never a capital, it differs from `c` exactly when `c` is one, and a
      capital becomes the small letter at the same place in the alphabet. */
  function ToLower(c: char): (r: char)
    ensures !IsUpper(r)
    ensures r == c <==> !IsUpper(c)
    ensures IsUpper(c) ==> 'a' <= r <= 'z' && r as int - 'a' as int == c as int - 'A' as int
  {
    if IsUpper(c) then (c as int + 32) as char else c
  }

  /** `str.lower` on a whole string: no capital is left, and the string is
      unchanged exactly when it has none. */
  function Lower(s: string): (r: string)
    ensures |r| == |s|
    ensures forall k :: 0 <= k < |s| ==> r[k] == ToLower(s[k])
    ensures forall k :: 0 <= k < |r| ==> !IsUpper(r[k])
    ensures r == s <==> forall k :: 0 <= k < |s| ==> !IsUpper(s[k])
  {
    var r := seq(|s|, k requires 0 <= k < |s| => ToLower(s[k]));
    assert (forall k :: 0 <= k < |s| ==> !IsUpper(s[k])) ==> r == s;
    r
  }

  /** Lowering twice is lowering once (the sonos dictionary lowers each phrase twice). */
  lemma LowerIdempotent(s: string)
    ensures Lower(Lower(s)) == Lower(s)
  {
  }

  /** `''.join(ch for ch in text if ch not in set(string.punctuation))` */
  function RemovePunctuation(s: string): (r: string)
    ensures |r| <= |s|
    ensures forall k :: 0 <= k < |r| ==> r[k] !in PUNCTUATION
  {
    if s == [] then []
    else (if s[0] in PUNCTUATION then [] else [s[0]]) + RemovePunctuation(s[1..])
  }

  /** Every character of the text but punctuation is kept, and nothing new appears. */
  lemma {:induction false} RemovePunctuationMembers(s: string)
    ensures forall c :: c in s && c !in PUNCTUATION ==> c in RemovePunctuation(s)
    ensures forall c :: c in RemovePunctuation(s) ==> c in s
  {
    if s != [] {
      RemovePunctuationMembers(s[1..]);
      assert forall c :: c in s <==> c == s[0] || c in s[1..];
    }
  }

  /** Removing punctuation works character by character, keeping order:
      the text split anywhere gives the two cleaned halves joined. */
  lemma {:induction false} RemovePunctuationAppend(s: string, t: string)
    ensures RemovePunctuation(s + t) == RemovePunctuation(s) + RemovePunctuation(t)
    decreases |s|
  {
    if s == [] {
      assert s + t == t;
    } else {
      var head := if s[0] in PUNCTUATION then [] else [s[0]];
      assert (s + t)[0] == s[0] && (s + t)[1..] == s[1..] + t;
      RemovePunctuationAppend(s[1..], t);
      assert RemovePunctuation(s + t) == head + (RemovePunctuation(s[1..]) + RemovePunctuation(t));
    }
  }

  /** One character is dropped if it is punctuation and kept otherwise. */
  lemma RemovePunctuationOne(c: char)
    ensures RemovePunctuation([c]) == if c in PUNCTUATION then [] else [c]
  {
    assert [c][1..] == [];
  }

  /** Lower-casing brings in no punctuation: small letters are not punctuation. */
  lemma LowerKeepsClean(s: string)
    requires forall k :: 0 <= k < |s| ==> s[k] !in PUNCTUATION
    ensures forall k :: 0 <= k < |s| ==> Lower(s)[k] !in PUNCTUATION
  {
    forall k | 0 <= k < |s|
      ensures Lower(s)[k] !in PUNCTUATION
    {
      if IsUpper(s[k]) {
        var c := ToLower(s[k]);
        assert 'a' <= c <= 'z';
        assert forall j :: 0 <= j < |PUNCTUATION| ==> !('a' <= PUNCTUATION[j] <= 'z');
      }
    }
  }

  /** The text an intent analysis works on: punctuation removed, then lower-cased. */
  function Normalise(text: string): (r: string)
    ensures |r| == |RemovePunctuation(text)| <= |text|
    ensures forall k :: 0 <= k < |r| ==> r[k] == ToLower(RemovePunctuation(text)[k])
    ensures forall k :: 0 <= k < |r| ==> r[k] !in PUNCTUATION && !IsUpper(r[k])
  {
    var clean := RemovePunctuation(text);
    LowerKeepsClean(clean);
    Lower(clean)
  }

  lemma {:induction false} RemovePunctuationKeepsClean(s: string)
    requires forall k :: 0 <= k < |s| ==> s[k] !in PUNCTUATION
    ensures RemovePunctuation(s) == s
    decreases |s|
  {
    if s != [] {
      RemovePunctuationKeepsClean(s[1..]);
    }
  }

  /** Normalising works character by character, keeping order: punctuation
      is dropped and every other character lower-cased. */
  lemma NormaliseAppend(s: string, t: string)
    ensures Normalise(s + t) == Normalise(s) + Normalise(t)
  {
    RemovePunctuationAppend(s, t);
    LowerAppend(RemovePunctuation(s), RemovePunctuation(t));
  }

  lemma NormaliseOne(c: char)
    ensures Normalise([c]) == if c in PUNCTUATION then [] else [ToLower(c)]
  {
    RemovePunctuationOne(c);
  }

  lemma LowerAppend(s: string, t: string)
    ensures Lower(s + t) == Lower(s) + Lower(t)
  {
    assert forall k :: 0 <= k < |s + t| ==> (s + t)[k] == if k < |s| then s[k] else t[k - |s|];
  }

  /** Normalising normalised text changes nothing. */
  lemma NormaliseIdempotent(text: string)
    ensures Normalise(Normalise(text)) == Normalise(text)
  {
    var n := Normalise(text);
    RemovePunctuationKeepsClean(n);
    LowerIdempotent(RemovePunctuation(text));
  }

  /** The characters `str.strip()` removes from a byte string: space, \t, \n, \v, \f, \r. */
  predicate IsSpace(c: char)
  {
    c == ' ' || 9 <= c as int <= 13
  }

  /** Where the text left after stripping leading white space from `s[i..]` begins. */
  function SkipSpaces(s: string, i: nat): (k: nat)
    requires i <= |s|
    ensures i <= k <= |s|
    ensures forall j :: i <= j < k ==> IsSpace(s[j])
    ensures k == |s| || !IsSpace(s[k])
    decreases |s| - i
  {
    if i == |s| || !IsSpace(s[i]) then i else SkipSpaces(s, i + 1)
  }

  /** Where the text left after stripping trailing white space from `s[lo..j]` ends. */
  function TrimSpaces(s: string, lo: nat, j: nat): (k: nat)
    requires lo <= j <= |s|
    ensures lo <= k <= j
    ensures forall m :: k <= m < j ==> IsSpace(s[m])
    ensures k == lo || !IsSpace(s[k - 1])
    decreases j - lo
  {
    if j == lo || !IsSpace(s[j - 1]) then j else TrimSpaces(s, lo, j - 1)
  }

  /** `s` is `r` with white space only before and after it. */
  predicate Padded(s: string, a: nat, r: string)
  {
    a + |r| <= |s| && OccursAt(r, s, a) &&
    (forall k :: 0 <= k < a ==> IsSpace(s[k])) &&
    (forall k :: a + |r| <= k < |s| ==> IsSpace(s[k]))
  }

  /** `str.strip()`: the result is a contiguous part of `s` with no white space
      at either end and only white space around it, and it is empty exactly
      when `s` is all white space. */
  function Strip(s: string): (r: string)
    ensures exists a :: Padded(s, a, r)
    ensures r == [] || (!IsSpace(r[0]) && !IsSpace(r[|r| - 1]))
    ensures r == [] <==> forall k :: 0 <= k < |s| ==> IsSpace(s[k])
  {
    var a := SkipSpaces(s, 0);
    var b := TrimSpaces(s, a, |s|);
    assert OccursAt(s[a..b], s, a);
    assert Padded(s, a, s[a..b]);
    s[a..b]
  }

  /** Only one part of `s` is padded by white space and has none at its ends:
      `strip` removes the white space at the ends and nothing else. */
  lemma StripExact(s: string, a: nat, r: string)
    requires Padded(s, a, r)
    requires r == [] || (!IsSpace(r[0]) && !IsSpace(r[|r| - 1]))
    ensures r == Strip(s)
  {
    if r == [] {
      assert forall k :: 0 <= k < |s| ==> IsSpace(s[k]) by {
        forall k | 0 <= k < |s|
          ensures IsSpace(s[k])
        {
          if k >= a { assert a + |r| <= k; }
        }
      }
    } else {
      assert s[a] == r[0] && s[a + |r| - 1] == r[|r| - 1];
      var i := SkipSpaces(s, 0);
      assert i == a;
      var j := TrimSpaces(s, i, |s|);
      assert j == a + |r|;
    }
  }

  /** `w` occurs in `s` at position `k`. */
  predicate OccursAt(w: string, s: string, k: int)
  {
    0 <= k && k + |w| <= |s| && s[k..k + |w|] == w
  }

  /** `s.find(w) >= 0`, which is also Python's `w in s`. */
  predicate Occurs(w: string, s: string)
  {
    exists k :: 0 <= k <= |s| - |w| && OccursAt(w, s, k)
  }

  /** `\w` of Python 2's `re` on a byte string. */
  predicate IsWordChar(c: char)
  {
    'a' <= c <= 'z' || 'A' <= c <= 'Z' || '0' <= c <= '9' || c == '_'
  }

  /** `\b` holds at position `p` of `s`. */
  predicate Boundary(s: string, p: int)
    requires 0 <= p <= |s|
  {
    (p > 0 && IsWordChar(s[p - 1])) != (p < |s| && IsWordChar(s[p]))
  }

  /** The pattern `\bw\b`, with `w` read literally, matches `s` at `k`. */
  predicate WholeWordAt(w: string, s: string, k: int)
  {
    OccursAt(w, s, k) && Boundary(s, k) && Boundary(s, k + |w|)
  }

  /** `re.search(r'\b%s\b' % w, s)` finds a match. */
  predicate HasWholeWord(w: string, s: string)
  {
    exists k :: 0 <= k <= |s| - |w| && WholeWordAt(w, s, k)
  }

  /** The leftmost match of `\bw\b` at or after `from`. */
  function FirstWholeWord(w: string, s: string, from: nat): (r: Option<nat>)
    ensures r.Some? ==> from <= r.value && WholeWordAt(w, s, r.value)
    ensures r.Some? ==> forall k :: from <= k < r.value ==> !WholeWordAt(w, s, k)
    ensures r.None? ==> forall k :: from <= k ==> !WholeWordAt(w, s, k)
    decreases |s| + 1 - from
  {
    if from > |s| then None
    else if WholeWordAt(w, s, from) then Some(from)
    else FirstWholeWord(w, s, from + 1)
  }

  /**
   * The first two pieces of `re.split(r'\b%s\b' % w, s)`, or None when the
   * split gives a single piece (Python 2 never splits on an empty match).
   * The pieces are what precedes the first match and what lies between the
   * first match and the second one (or the end of `s`).
   */
  function SplitHead(w: string, s: string): (r: Option<(string, string)>)
    ensures r.None? <==> w == [] || !HasWholeWord(w, s)
    ensures r.Some? ==> SplitPiecesOf(w, s, r.value.0, r.value.1)
  {
    if w == [] then None
    else match FirstWholeWord(w, s, 0)
      case None => None
      case Some(k) =>
        assert HasWholeWord(w, s);
        var e := k + |w|;
        var stop := NextMatch(w, s, e);
        SplitPieces(w, s, k, stop);
        Some((s[..k], s[e..stop]))
  }

  /**
   * `pre` and `post` are the first two pieces of splitting `s` at the whole
   * word `w`: `pre`, `w`, `post` spell the start of `s`; `w` matches there and
   * nowhere earlier; no match starts inside `post`, and `post` runs up to the
   * next match or the end of `s`.
   */
  predicate SplitPiecesOf(w: string, s: string, pre: string, post: string)
  {
    var n := |pre| + |w| + |post|;
    && n <= |s| && s[..n] == pre + w + post
    && WholeWordAt(w, s, |pre|)
    && (forall k :: 0 <= k < |pre| ==> !WholeWordAt(w, s, k))
    && (forall k :: |pre| + |w| <= k < n ==> !WholeWordAt(w, s, k))
    && (n == |s| || WholeWordAt(w, s, n))
  }

  /** Where the next whole-word match at or after `from` starts, or the end of `s`. */
  function NextMatch(w: string, s: string, from: nat): (stop: nat)
    requires from <= |s|
    ensures from <= stop <= |s|
    ensures forall j :: from <= j < stop ==> !WholeWordAt(w, s, j)
    ensures stop == |s| || WholeWordAt(w, s, stop)
  {
    match FirstWholeWord(w, s, from)
    case None => |s|
    case Some(k) => k
  }

  /** The text before the first match at `k` and from its end up to the next
      match (or the end) at `stop` are the two pieces of the split. */
  lemma SplitPieces(w: string, s: string, k: nat, stop: nat)
    requires WholeWordAt(w, s, k) && forall j :: 0 <= j < k ==> !WholeWordAt(w, s, j)
    requires k + |w| <= stop <= |s|
    requires forall j :: k + |w| <= j < stop ==> !WholeWordAt(w, s, j)
    requires stop == |s| || WholeWordAt(w, s, stop)
    ensures SplitPiecesOf(w, s, s[..k], s[k + |w|..stop])
  {
    assert s[..k + |w|] == s[..k] + w;
    assert s[..stop] == s[..k] + w + s[k + |w|..stop];
  }

  /** A whole-word match is in particular an occurrence, so `find` succeeds
      wherever `re.search` does; the converse fails (see `FindWithoutWholeWord`). */
  lemma WholeWordOccurs(w: string, s: string)
    requires HasWholeWord(w, s)
    ensures Occurs(w, s)
  {
  }

  /** "play" occurs in "playing" but not as a whole word. */
  lemma FindWithoutWholeWord()
    ensures Occurs("play", "playing")
    ensures !HasWholeWord("play", "playing")
    ensures SplitHead("play", "playing") == None
  {
    assert OccursAt("play", "playing", 0);
    assert !Boundary("playing", 4);
  }

  /** Only the first two pieces are used: in "play x play y" the words after
      the second "play" are not part of either piece. */
  lemma SecondOccurrenceDropped()
    ensures SplitHead("play", "play x play y") == Some(("", " x "))
  {
    var s := "play x play y";
    assert WholeWordAt("play", s, 0);
    assert !WholeWordAt("play", s, 4);
    assert !WholeWordAt("play", s, 5);
    assert !WholeWordAt("play", s, 6);
    assert WholeWordAt("play", s, 7);
    assert FirstWholeWord("play", s, 7) == Some(7);
    assert FirstWholeWord("play", s, 6) == Some(7);
    assert FirstWholeWord("play", s, 5) == Some(7);
    assert FirstWholeWord("play", s, 4) == Some(7);
    assert FirstWholeWord("play", s, 0) == Some(0);
    assert NextMatch("play", s, 4) == 7;
    assert s[..0] == "" && s[4..7] == " x ";
  }

  lemma StripTrailingBlank()
    ensures Strip("a ") == "a"
  {
    assert SkipSpaces("a ", 0) == 0;
    assert TrimSpaces("a ", 0, 1) == 1;
    assert TrimSpaces("a ", 0, 2) == 1;
    assert "a "[0..1] == "a";
  }

  lemma StripLeadingBlank()
    ensures Strip(" b") == "b"
  {
    assert SkipSpaces(" b", 1) == 1;
    assert SkipSpaces(" b", 0) == 1;
    assert TrimSpaces(" b", 1, 2) == 2;
    assert " b"[1..2] == "b";
  }

  /** Stripping removes the blank at either end. */
  lemma StripExamples()
    ensures Strip("a ") == "a" && Strip(" b") == "b"
  {
    StripTrailingBlank();
    StripLeadingBlank();
  }

  /** Splitting "a by b" at the whole word "by" leaves "a " and " b". */
  lemma SplitAroundBy()
    ensures SplitHead("by", "a by b") == Some(("a ", " b"))
  {
    var s := "a by b";
    assert !WholeWordAt("by", s, 0) && !WholeWordAt("by", s, 1);
    assert WholeWordAt("by", s, 2);
    assert FirstWholeWord("by", s, 0) == Some(2);
    assert !WholeWordAt("by", s, 4) && !WholeWordAt("by", s, 5) && !WholeWordAt("by", s, 6);
    assert FirstWholeWord("by", s, 7) == None;
    assert FirstWholeWord("by", s, 6) == None;
    assert FirstWholeWord("by", s, 5) == None;
    assert FirstWholeWord("by", s, 4) == None;
    assert NextMatch("by", s, 4) == |s|;
    assert SplitHead("by", s) == Some((s[..2], s[4..|s|]));
    assert s[..2] == "a " && s[4..|s|] == " b";
  }
}
