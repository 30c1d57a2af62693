/** The few Python string operations the scraper relies on: `in` on strings,
    `lower`, `strip`, `replace`, and `title`. Case mapping covers ASCII letters. */
module Text {

  /** `p` occurs in `s` at position `i`. */
  ghost predicate OccursAt(s: string, p: string, i: int)
  {
    0 <= i && i + |p| <= |s| && s[i..i + |p|] == p
  }

  /** Python's `p in s` for strings: true when `p` is a substring of `s`
      (the empty string is a substring of every string). */
  function Contains(s: string, p: string): (r: bool)
    ensures r <==> exists i :: OccursAt(s, p, i)
  {
    if |p| > |s| then
      assert forall i :: !OccursAt(s, p, i);
      false
    else if s[..|p|] == p then
      assert OccursAt(s, p, 0);
      true
    else
      OccursShift(s, p);
      Contains(s[1..], p)
  }

  /** When `p` is not a prefix of `s`, it occurs in `s` exactly when it occurs
      in `s[1..]`. */
  lemma OccursShift(s: string, p: string)
    requires |p| <= |s| && s[..|p|] != p
    ensures s != []
    ensures (exists i :: OccursAt(s, p, i)) <==> (exists i :: OccursAt(s[1..], p, i))
  {
    forall i | OccursAt(s, p, i) ensures i > 0 && OccursAt(s[1..], p, i - 1) {
      assert s[1..][i - 1..i - 1 + |p|] == s[i..i + |p|];
    }
    forall i | OccursAt(s[1..], p, i) ensures OccursAt(s, p, i + 1) {
      assert s[i + 1..i + 1 + |p|] == s[1..][i..i + |p|];
    }
  }

  predicate IsUpperAscii(c: char) { 'A' <= c <= 'Z' }
  predicate IsLowerAscii(c: char) { 'a' <= c <= 'z' }
  predicate IsAsciiLetter(c: char) { IsUpperAscii(c) || IsLowerAscii(c) }

  function ToLowerChar(c: char): (r: char)
    ensures !IsUpperAscii(r)
    ensures IsAsciiLetter(c) <==> IsAsciiLetter(r)
    ensures IsLowerAscii(c) ==> r == c
  {
    if IsUpperAscii(c) then (c as int - 'A' as int + 'a' as int) as char else c
  }

  function ToUpperChar(c: char): (r: char)
    ensures !IsLowerAscii(r)
    ensures IsAsciiLetter(c) <==> IsAsciiLetter(r)
    ensures IsUpperAscii(c) ==> r == c
  {
    if IsLowerAscii(c) then (c as int - 'a' as int + 'A' as int) as char else c
  }

  /** Python's `str.lower()`, on ASCII letters. */
  function Lower(s: string): (r: string)
    ensures |r| == |s|
    ensures forall i :: 0 <= i < |s| ==> r[i] == ToLowerChar(s[i])
  {
    if s == [] then [] else [ToLowerChar(s[0])] + Lower(s[1..])
  }

  /** Lower-casing twice is lower-casing once. */
  lemma {:induction false} LowerIdempotent(s: string)
    ensures Lower(Lower(s)) == Lower(s)
  {
  }

  /** The characters Python's `str.isspace()` accepts, which are the ones
      `str.strip()` removes. */
  predicate IsSpace(c: char)
  {
    || c == ' '
    || '\t' <= c <= '\r'
    || '\U{1C}' <= c <= '\U{1F}'
    || c == '\U{85}' || c == '\U{A0}' || c == '\U{1680}'
    || '\U{2000}' <= c <= '\U{200A}'
    || c == '\U{2028}' || c == '\U{2029}' || c == '\U{202F}' || c == '\U{205F}'
    || c == '\U{3000}'
  }

  /** Drops leading whitespace; the result is a suffix of `s`. */
  function StripLeft(s: string): (r: string)
    ensures |r| <= |s| && r == s[|s| - |r|..]
    ensures r != [] ==> !IsSpace(r[0])
    ensures forall i :: 0 <= i < |s| - |r| ==> IsSpace(s[i])
  {
    if s != [] && IsSpace(s[0]) then StripLeft(s[1..]) else s
  }

  /** Drops trailing whitespace; the result is a prefix of `s`. */
  function StripRight(s: string): (r: string)
    ensures |r| <= |s| && r == s[..|r|]
    ensures r != [] ==> !IsSpace(r[|r| - 1])
    ensures forall i :: |r| <= i < |s| ==> IsSpace(s[i])
  {
    if s != [] && IsSpace(s[|s| - 1]) then StripRight(s[..|s| - 1]) else s
  }

  /** Python's `str.strip()`: the longest slice of `s` that neither starts nor
      ends with whitespace, obtained by removing only whitespace. */
  function Strip(s: string): (r: string)
    ensures exists i, j ::
      && 0 <= i <= j <= |s| && r == s[i..j]
      && (forall k :: 0 <= k < i ==> IsSpace(s[k]))
      && (forall k :: j <= k < |s| ==> IsSpace(s[k]))
    ensures r != [] ==> !IsSpace(r[0]) && !IsSpace(r[|r| - 1])
  {
    var left := StripLeft(s);
    var r := StripRight(left);
    var i := |s| - |left|;
    assert r == s[i..i + |r|];
    r
  }

  /** Stripping on the left stops at the first character that is not
      whitespace. */
  lemma StripLeftAt(s: string, i: nat)
    requires i <= |s| && (forall k :: 0 <= k < i ==> IsSpace(s[k]))
    requires i == |s| || !IsSpace(s[i])
    ensures StripLeft(s) == s[i..]
  {
    var c := |s| - |StripLeft(s)|;
    assert c == i;
  }

  /** Stripping on the right stops after the last character that is not
      whitespace. */
  lemma StripRightAt(s: string, j: nat)
    requires j <= |s| && (forall k :: j <= k < |s| ==> IsSpace(s[k]))
    requires j == 0 || !IsSpace(s[j - 1])
    ensures StripRight(s) == s[..j]
  {
    var c := |StripRight(s)|;
    assert c == j;
  }

  lemma SliceOfSuffix(s: string, i: nat, j: nat)
    requires i <= j <= |s|
    ensures s[i..][..j - i] == s[i..j]
  {
  }

  /** `s[i..j]` is the stripped text when everything outside it is
      whitespace and it neither starts nor ends with whitespace. */
  lemma StripAt(s: string, i: nat, j: nat)
    requires i <= j <= |s|
    requires forall k :: 0 <= k < i ==> IsSpace(s[k])
    requires forall k :: j <= k < |s| ==> IsSpace(s[k])
    requires i < j ==> !IsSpace(s[i]) && !IsSpace(s[j - 1])
    ensures Strip(s) == s[i..j]
  {
    if i == j {
      forall k | 0 <= k < |s| ensures IsSpace(s[k]) {
        if k >= j {
          assert j <= k < |s|;
        }
      }
      StripLeftAt(s, |s|);
      assert StripLeft(s) == [];
      assert StripRight([]) == [];
    } else {
      StripLeftAt(s, i);
      var left := s[i..];
      forall k | j - i <= k < |left| ensures IsSpace(left[k]) {
        assert left[k] == s[i + k];
      }
      assert left[j - i - 1] == s[j - 1];
      StripRightAt(left, j - i);
      SliceOfSuffix(s, i, j);
    }
  }

  lemma SliceOfPrefix(v: string, m: nat, i: nat, j: nat)
    requires i <= j <= m <= |v|
    ensures v[..m][i..j] == v[i..j]
    ensures i < j ==> v[..m][i] == v[i] && v[..m][j - 1] == v[j - 1]
  {
  }

  /** Leading whitespace before a text that starts with a non-blank
      character is what stripping on the left removes. */
  lemma StripLeftAfterBlanks(w: string, x: string)
    requires x != [] && !IsSpace(x[0])
    requires forall k :: 0 <= k < |w| ==> IsSpace(w[k])
    ensures StripLeft(w + x) == x
  {
    var t := w + x;
    forall k | 0 <= k < |w| ensures IsSpace(t[k]) {
      assert t[k] == w[k];
    }
    assert t[|w|] == x[0];
    StripLeftAt(t, |w|);
    assert t[|w|..] == x;
  }

  /** Stripping a label and its tail on the right strips only the tail when
      the label does not end with whitespace. */
  lemma StripRightLabelled(p: string, v: string)
    requires p != [] && !IsSpace(p[|p| - 1])
    ensures StripRight(p + v) == p + StripRight(v)
  {
    var s := p + v;
    var u := StripRight(v);
    var j := |p| + |u|;
    forall k | j <= k < |s| ensures IsSpace(s[k]) {
      assert s[k] == v[k - |p|];
    }
    if u == [] {
      assert s[j - 1] == p[|p| - 1];
    } else {
      assert s[j - 1] == v[|u| - 1] == u[|u| - 1];
    }
    StripRightAt(s, j);
    assert s[..j] == p + v[..|u|];
  }

  /** Stripping a text made of leading whitespace, a label with non-blank
      ends and a tail keeps the label and strips the tail on the right. */
  lemma StripLabelled(w: string, p: string, v: string)
    requires p != [] && !IsSpace(p[0]) && !IsSpace(p[|p| - 1])
    requires forall k :: 0 <= k < |w| ==> IsSpace(w[k])
    ensures Strip(w + p + v) == p + StripRight(v)
  {
    assert w + p + v == w + (p + v);
    StripLeftAfterBlanks(w, p + v);
    StripRightLabelled(p, v);
  }

  /** Whitespace at the start of a prefix is whitespace at the start of the
      whole text. */
  lemma BlankStartOfPrefix(v: string, m: nat, i: nat)
    requires i <= m <= |v|
    requires forall k :: 0 <= k < i ==> IsSpace(v[..m][k])
    ensures forall k :: 0 <= k < i ==> IsSpace(v[k])
  {
    forall k | 0 <= k < i ensures IsSpace(v[k]) {
      assert v[k] == v[..m][k];
    }
  }

  /** Stripping after stripping on the right is stripping. */
  lemma StripOfStripRight(v: string)
    ensures Strip(StripRight(v)) == Strip(v)
  {
    var u := StripRight(v);
    var m := |u|;
    var i := m - |StripLeft(u)|;
    StripAt(u, i, m);
    SliceOfPrefix(v, m, i, m);
    BlankStartOfPrefix(v, m, i);
    StripAt(v, i, m);
  }

  /** An occurrence in a prefix is an occurrence in the whole text. */
  lemma ContainsInPrefix(s: string, p: string, m: nat)
    requires m <= |s|
    ensures Contains(s[..m], p) ==> Contains(s, p)
  {
    if Contains(s[..m], p) {
      var i :| OccursAt(s[..m], p, i);
      assert s[..m][i..i + |p|] == s[i..i + |p|];
      assert OccursAt(s, p, i);
    }
  }

  /** Removing a label from a text that starts with it and has no further
      occurrence leaves the rest. */
  lemma RemoveLeadingLabel(p: string, u: string)
    requires p != [] && !Contains(u, p)
    ensures RemoveAll(p + u, p) == u
  {
    var s := p + u;
    assert s[..|p|] == p;
    assert s[|p|..] == u;
  }

  lemma StripLeftKeepsOccurrence(s: string, p: string, n: int)
    requires p != [] && !IsSpace(p[0]) && OccursAt(s, p, n)
    ensures OccursAt(StripLeft(s), p, n - (|s| - |StripLeft(s)|))
  {
    var r := StripLeft(s);
    var cut := |s| - |r|;
    assert s[n] == p[0] by {
      assert s[n..n + |p|][0] == p[0];
    }
    assert !IsSpace(s[n]);
    assert cut <= n;
    assert r == s[cut..];
    forall k | 0 <= k < |p| ensures r[n - cut + k] == p[k] {
      assert r[n - cut + k] == s[n + k];
      assert s[n..n + |p|][k] == s[n + k];
    }
    assert r[n - cut..n - cut + |p|] == p;
  }

  lemma StripRightKeepsOccurrence(s: string, p: string, n: int)
    requires p != [] && !IsSpace(p[|p| - 1]) && OccursAt(s, p, n)
    ensures OccursAt(StripRight(s), p, n)
  {
    var r := StripRight(s);
    assert s[n + |p| - 1] == p[|p| - 1] by {
      assert s[n..n + |p|][|p| - 1] == p[|p| - 1];
    }
    assert !IsSpace(s[n + |p| - 1]);
    assert n + |p| <= |r|;
    assert r[n..n + |p|] == s[n..n + |p|];
  }

  /** Stripping never cuts into an occurrence of a pattern that neither starts
      nor ends with whitespace. */
  lemma StripKeepsOccurrence(s: string, p: string)
    ensures p != [] && !IsSpace(p[0]) && !IsSpace(p[|p| - 1]) && Contains(s, p) ==> Contains(Strip(s), p)
  {
    if p != [] && !IsSpace(p[0]) && !IsSpace(p[|p| - 1]) && Contains(s, p) {
      var n :| OccursAt(s, p, n);
      var left := StripLeft(s);
      StripLeftKeepsOccurrence(s, p, n);
      StripRightKeepsOccurrence(left, p, n - (|s| - |left|));
      assert Strip(s) == StripRight(left);
    }
  }

  /** Python's `s.replace(p, "")`: removes the occurrences of `p` found by a
      single left-to-right scan, without overlaps. */
  function RemoveAll(s: string, p: string): (r: string)
    ensures |r| <= |s|
    ensures !Contains(s, p) ==> r == s
    ensures p != [] && Contains(s, p) ==> |r| <= |s| - |p|
    decreases |s|
  {
    if p == [] then s
    else if |s| < |p| then
      assert forall i :: !OccursAt(s, p, i);
      s
    else if s[..|p|] == p then
      assert OccursAt(s, p, 0);
      RemoveAll(s[|p|..], p)
    else
      OccursShift(s, p);
      [s[0]] + RemoveAll(s[1..], p)
  }

  /** Python's `s.replace(a, b)` for single characters. */
  function ReplaceChar(s: string, a: char, b: char): (r: string)
    ensures |r| == |s|
    ensures forall i :: 0 <= i < |s| ==> r[i] == (if s[i] == a then b else s[i])
  {
    if s == [] then [] else [if s[0] == a then b else s[0]] + ReplaceChar(s[1..], a, b)
  }

  /** What `str.title()` makes of the character at `i`: a letter that starts a
      run of letters is upper-cased, any other letter lower-cased, anything
      else kept. `afterLetter` says whether a letter precedes `s[0]`. */
  function TitleCharAt(s: string, i: nat, afterLetter: bool): char
    requires i < |s|
  {
    var starts := if i == 0 then !afterLetter else !IsAsciiLetter(s[i - 1]);
    if starts then ToUpperChar(s[i]) else ToLowerChar(s[i])
  }

  function TitleFrom(s: string, afterLetter: bool): (r: string)
    ensures |r| == |s|
    ensures forall i :: 0 <= i < |s| ==> r[i] == TitleCharAt(s, i, afterLetter)
  {
    if s == [] then []
    else
      var rest := TitleFrom(s[1..], IsAsciiLetter(s[0]));
      assert forall i :: 1 <= i < |s| ==> TitleCharAt(s[1..], i - 1, IsAsciiLetter(s[0])) == TitleCharAt(s, i, afterLetter);
      [TitleCharAt(s, 0, afterLetter)] + rest
  }

  /** Python's `str.title()` on ASCII text: every word (maximal run of letters)
      gets an upper-case first letter and lower-case remaining letters. */
  function Title(s: string): (r: string)
    ensures |r| == |s|
    ensures forall i :: 0 <= i < |s| ==> r[i] == TitleCharAt(s, i, false)
  {
    TitleFrom(s, false)
  }
}
