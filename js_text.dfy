/** String helpers with the semantics of JavaScript's `String.prototype.trim`. */
module JsText {

  /** The characters `trim` removes: the WhiteSpace and LineTerminator code points of
      ECMAScript (tab, vertical tab, form feed, the byte order mark, every space separator
      of Unicode category Zs, line feed, carriage return, line and paragraph separator). */
  const WhiteSpace: set<char> := {
    '\t', '\U{000B}', '\U{000C}', '\U{FEFF}',
    ' ', '\U{00A0}', '\U{1680}', '\U{2000}', '\U{2001}', '\U{2002}', '\U{2003}', '\U{2004}',
    '\U{2005}', '\U{2006}', '\U{2007}', '\U{2008}', '\U{2009}', '\U{200A}',
    '\U{202F}', '\U{205F}', '\U{3000}',
    '\n', '\r', '\U{2028}', '\U{2029}'
  }

  predicate IsWhiteSpace(c: char) {
    c in WhiteSpace
  }

  predicate AllWhiteSpace(s: string) {
    forall i :: 0 <= i < |s| ==> IsWhiteSpace(s[i])
  }

  /** Number of white-space characters at the start of `s`. */
  function LeadingSpace(s: string): (n: nat)
    ensures n <= |s|
    ensures forall i :: 0 <= i < n ==> IsWhiteSpace(s[i])
    ensures n < |s| ==> !IsWhiteSpace(s[n])
  {
    if s != [] && IsWhiteSpace(s[0]) then 1 + LeadingSpace(s[1..]) else 0
  }

  /** Number of white-space characters at the end of `s`. */
  function TrailingSpace(s: string): (n: nat)
    ensures n <= |s|
    ensures forall i :: |s| - n <= i < |s| ==> IsWhiteSpace(s[i])
    ensures n < |s| ==> !IsWhiteSpace(s[|s| - n - 1])
  {
    if s != [] && IsWhiteSpace(s[|s| - 1]) then 1 + TrailingSpace(s[..|s| - 1]) else 0
  }

  /** The run of leading white space is the only one that ends at a non-white-space
      character or at the end of the string. */
  lemma {:induction false} LeadingSpaceUnique(s: string, n: nat)
    requires n <= |s|
    requires forall i :: 0 <= i < n ==> IsWhiteSpace(s[i])
    requires n < |s| ==> !IsWhiteSpace(s[n])
    ensures LeadingSpace(s) == n
  {
  }

  /** The same for the run of trailing white space. */
  lemma {:induction false} TrailingSpaceUnique(s: string, n: nat)
    requires n <= |s|
    requires forall i :: |s| - n <= i < |s| ==> IsWhiteSpace(s[i])
    requires n < |s| ==> !IsWhiteSpace(s[|s| - n - 1])
    ensures TrailingSpace(s) == n
  {
  }

  /** White space in front of `p` lengthens its leading run by exactly its own length. */
  lemma {:induction false} LeadingSpacePrefixed(w: string, p: string)
    requires AllWhiteSpace(w)
    ensures LeadingSpace(w + p) == |w| + LeadingSpace(p)
  {
    var s := w + p;
    var n := |w| + LeadingSpace(p);
    forall i | 0 <= i < n ensures IsWhiteSpace(s[i]) {
      if i < |w| { assert s[i] == w[i]; } else { assert s[i] == p[i - |w|]; }
    }
    if n < |s| { assert s[n] == p[LeadingSpace(p)]; }
    LeadingSpaceUnique(s, n);
  }

  /** White space behind `p` lengthens its trailing run by exactly its own length. */
  lemma {:induction false} TrailingSpaceSuffixed(p: string, w: string)
    requires AllWhiteSpace(w)
    ensures TrailingSpace(p + w) == TrailingSpace(p) + |w|
  {
    var s := p + w;
    var n := TrailingSpace(p) + |w|;
    forall i | |s| - n <= i < |s| ensures IsWhiteSpace(s[i]) {
      if i < |p| { assert s[i] == p[i]; } else { assert s[i] == w[i - |p|]; }
    }
    if n < |s| { assert s[|s| - n - 1] == p[|p| - TrailingSpace(p) - 1]; }
    TrailingSpaceUnique(s, n);
  }

  /** Text behind a string that is not all white space does not change its leading run. */
  lemma {:induction false} LeadingSpaceAppended(p: string, q: string)
    requires LeadingSpace(p) < |p|
    ensures LeadingSpace(p + q) == LeadingSpace(p)
  {
    var s := p + q;
    var n := LeadingSpace(p);
    forall i | 0 <= i < n ensures IsWhiteSpace(s[i]) {
      assert s[i] == p[i];
    }
    assert s[n] == p[n];
    LeadingSpaceUnique(s, n);
  }

  function TrimStart(s: string): string {
    s[LeadingSpace(s)..]
  }

  function TrimEnd(s: string): string {
    s[..|s| - TrailingSpace(s)]
  }

  /** `s.trim()` */
  function Trim(s: string): string {
    TrimEnd(TrimStart(s))
  }

  /** What `TrimStart` cuts is white space, and what it keeps does not start with any. */
  lemma {:induction false} TrimStartCuts(s: string)
    ensures AllWhiteSpace(s[..LeadingSpace(s)])
    ensures TrimStart(s) != [] ==> !IsWhiteSpace(TrimStart(s)[0])
  {
    var i := LeadingSpace(s);
    if i < |s| { assert TrimStart(s)[0] == s[i]; }
  }

  /** What `TrimEnd` cuts is white space, and what it keeps does not end with any. */
  lemma {:induction false} TrimEndCuts(t: string)
    ensures AllWhiteSpace(t[|TrimEnd(t)|..])
    ensures TrimEnd(t) != [] ==> TrimEnd(t)[0] == t[0] && !IsWhiteSpace(TrimEnd(t)[|TrimEnd(t)| - 1])
  {
    var r := TrimEnd(t);
    var cut := t[|r|..];
    forall k | 0 <= k < |cut| ensures IsWhiteSpace(cut[k]) {
      assert cut[k] == t[|r| + k];
    }
  }

  /** What `trim` keeps is a contiguous slice of its input, everything cut away is white
      space, and the slice neither starts nor ends with white space. */
  lemma {:induction false} TrimIsMaximalSlice(s: string)
    ensures var r := Trim(s); var i := LeadingSpace(s);
      i + |r| <= |s| && r == s[i..i + |r|]
      && AllWhiteSpace(s[..i]) && AllWhiteSpace(s[i + |r|..])
      && (r != [] ==> !IsWhiteSpace(r[0]) && !IsWhiteSpace(r[|r| - 1]))
  {
    var i := LeadingSpace(s);
    var t := TrimStart(s);
    var r := Trim(s);
    TrimStartCuts(s);
    TrimEndCuts(t);
    assert s[i + |r|..] == t[|r|..];
    assert r == t[..|r|];
  }

  /** A string of white space only is trimmed away entirely. */
  lemma {:induction false} BlankTrimsAway(s: string)
    requires AllWhiteSpace(s)
    ensures TrimStart(s) == [] && Trim(s) == []
  {
    LeadingSpaceUnique(s, |s|);
  }

  /** `trim` yields the empty string exactly when its input is all white space. */
  lemma {:induction false} TrimEmptyIff(s: string)
    ensures Trim(s) == [] <==> AllWhiteSpace(s)
  {
    var i := LeadingSpace(s);
    if i < |s| {
      var t := s[i..];
      assert t[0] == s[i];
    } else {
      assert s[..i] == s;
    }
  }

  lemma {:induction false} TrimStartPrefixed(w: string, p: string)
    requires AllWhiteSpace(w)
    ensures TrimStart(w + p) == TrimStart(p)
  {
    LeadingSpacePrefixed(w, p);
    assert (w + p)[|w|..] == p;
  }

  lemma {:induction false} TrimStartAppended(p: string, q: string)
    requires LeadingSpace(p) < |p|
    ensures TrimStart(p + q) == TrimStart(p) + q
  {
    var n := LeadingSpace(p);
    LeadingSpaceAppended(p, q);
    forall k | 0 <= k < |p| - n + |q| ensures (p + q)[n..][k] == (p[n..] + q)[k] {
      if k < |p| - n { assert (p + q)[n + k] == p[n + k]; }
    }
  }

  lemma {:induction false} TrimEndSuffixed(p: string, w: string)
    requires AllWhiteSpace(w)
    ensures TrimEnd(p + w) == TrimEnd(p)
  {
    TrailingSpaceSuffixed(p, w);
    assert (p + w)[..|p|] == p;
  }

  /** The white space that surrounds an instruction never changes what `trim` returns. */
  lemma {:induction false} SurroundingWhiteSpaceIgnored(before: string, p: string, after: string)
    requires AllWhiteSpace(before) && AllWhiteSpace(after)
    ensures Trim(before + p + after) == Trim(p)
  {
    assert before + p + after == before + (p + after);
    TrimStartPrefixed(before, p + after);
    if LeadingSpace(p) == |p| {
      assert AllWhiteSpace(p + after) by {
        forall k | 0 <= k < |p| + |after| ensures IsWhiteSpace((p + after)[k]) {
          if k >= |p| { assert (p + after)[k] == after[k - |p|]; }
        }
      }
      BlankTrimsAway(p + after);
      assert TrimStart(p) == [];
    } else {
      TrimStartAppended(p, after);
      TrimEndSuffixed(TrimStart(p), after);
    }
  }

  /** Trimming twice is trimming once. */
  lemma {:induction false} TrimIdempotent(s: string)
    ensures Trim(Trim(s)) == Trim(s)
  {
    var r := Trim(s);
    TrimIsMaximalSlice(s);
    LeadingSpaceUnique(r, 0);
    TrailingSpaceUnique(r, 0);
  }
}
