/**
 * The string operations of Python that the build script relies on:
 * `str.find`, `str.replace`, `str.split(sep)` and `str.strip()`,
 * over strings as sequences of characters.
 */
module Text {
  import opened Base

  /** `pat` appears in `s` starting at index `i`. */
  predicate OccursAt(s: string, pat: string, i: nat)
  {
    i + |pat| <= |s| && s[i..i + |pat|] == pat
  }

  /** `pat` appears somewhere in `s`. */
  predicate Contains(s: string, pat: string)
  {
    exists i: nat :: i <= |s| && OccursAt(s, pat, i)
  }

  /** `a` is a prefix of `b`. */
  predicate IsPrefix(a: string, b: string)
  {
    |a| <= |b| && b[..|a|] == a
  }

  /** Occurrences in `s[1..]` are the occurrences in `s` after index 0, shifted by one. */
  lemma {:induction false} TailOccurrences(s: string, pat: string)
    requires |s| > 0
    ensures forall i: nat :: OccursAt(s[1..], pat, i) ==> OccursAt(s, pat, i + 1)
    ensures forall j: nat :: 0 < j && OccursAt(s, pat, j) ==> OccursAt(s[1..], pat, j - 1)
  {
    forall i: nat
      ensures OccursAt(s[1..], pat, i) ==> OccursAt(s, pat, i + 1)
    {
      if i + 1 + |pat| <= |s| {
        assert s[1..][i..i + |pat|] == s[i + 1..i + 1 + |pat|];
      }
    }
    forall j: nat | 0 < j
      ensures OccursAt(s, pat, j) ==> OccursAt(s[1..], pat, j - 1)
    {
      if j + |pat| <= |s| {
        assert s[1..][j - 1..j - 1 + |pat|] == s[j..j + |pat|];
      }
    }
  }

  /** Occurrences in `s[k..]` are the occurrences in `s` from index `k` on, shifted by `k`. */
  lemma {:induction false} DropOccurrences(s: string, pat: string, k: nat)
    requires k <= |s|
    ensures forall i: nat :: OccursAt(s[k..], pat, i) ==> OccursAt(s, pat, i + k)
  {
    forall i: nat | OccursAt(s[k..], pat, i)
      ensures OccursAt(s, pat, i + k)
    {
      assert s[k..][i..i + |pat|] == s[i + k..i + k + |pat|];
    }
  }

  /**
   * Python's `s.find(pat)`: the index of the leftmost occurrence of `pat`,
   * or None (Python's -1) when there is none.
   */
  function Find(s: string, pat: string): (r: Option<nat>)
    ensures r.Some? ==> OccursAt(s, pat, r.value)
    ensures r.Some? ==> forall j: nat :: j < r.value ==> !OccursAt(s, pat, j)
    ensures r.None? <==> !Contains(s, pat)
    decreases |s|
  {
    if |s| < |pat| then
      None
    else if s[..|pat|] == pat then
      assert OccursAt(s, pat, 0);
      Some(0)
    else
      TailOccurrences(s, pat);
      match Find(s[1..], pat)
      case None => None
      case Some(i) => Some(i + 1)
  }

  /**
   * Python's `s.replace(pat, rep)` for a non-empty `pat`, as CPython does it:
   * find the leftmost occurrence, copy what precedes it, emit `rep` and go
   * on after the occurrence; with no occurrence left, copy the rest.
   */
  function ReplaceAll(s: string, pat: string, rep: string): string
    requires pat != []
    decreases |s|
  {
    match Find(s, pat)
    case None => s
    case Some(i) => s[..i] + rep + ReplaceAll(s[i + |pat|..], pat, rep)
  }

  /** Text around an occurrence is what precedes it, the occurrence, and what follows. */
  lemma {:induction false} AroundOccurrence(s: string, pat: string, i: nat)
    requires OccursAt(s, pat, i)
    ensures s == s[..i] + pat + s[i + |pat|..]
  {
  }

  /** The text before the leftmost occurrence holds no occurrence. */
  lemma {:induction false} NoOccurrenceBefore(s: string, pat: string, i: nat)
    requires pat != [] && i <= |s|
    requires forall j: nat :: j < i ==> !OccursAt(s, pat, j)
    ensures !Contains(s[..i], pat)
  {
    forall j: nat
      ensures !OccursAt(s[..i], pat, j)
    {
      if j + |pat| <= i {
        assert s[..i][j..j + |pat|] == s[j..j + |pat|];
        assert !OccursAt(s, pat, j);
      }
    }
  }

  /** Text without an occurrence of the pattern comes back unchanged. */
  lemma {:induction false} ReplaceWithoutOccurrence(s: string, pat: string, rep: string)
    requires pat != [] && !Contains(s, pat)
    ensures ReplaceAll(s, pat, rep) == s
  {
    assert Find(s, pat) == None;
  }

  /**
   * When the pattern occurs exactly once, at the end of `x`, the result is
   * `x` and `y` unchanged around the replacement.
   */
  lemma {:induction false} ReplaceSingleOccurrence(x: string, y: string, pat: string, rep: string)
    requires pat != []
    requires forall j: nat :: OccursAt(x + pat + y, pat, j) ==> j == |x|
    ensures ReplaceAll(x + pat + y, pat, rep) == x + rep + y
  {
    var s := x + pat + y;
    FindSingleOccurrence(x, y, pat);
    NothingAfterSingleOccurrence(x, y, pat);
    assert s[..|x|] == x;
    assert s[|x| + |pat|..] == y;
    ReplaceWithoutOccurrence(y, pat, rep);
  }

  /** The only occurrence is the leftmost. */
  lemma {:induction false} FindSingleOccurrence(x: string, y: string, pat: string)
    requires forall j: nat :: OccursAt(x + pat + y, pat, j) ==> j == |x|
    ensures Find(x + pat + y, pat) == Some(|x|)
  {
    var s := x + pat + y;
    assert s[|x|..|x| + |pat|] == pat;
    assert OccursAt(s, pat, |x|);
  }

  /** Nothing follows the only occurrence. */
  lemma {:induction false} NothingAfterSingleOccurrence(x: string, y: string, pat: string)
    requires pat != []
    requires forall j: nat :: OccursAt(x + pat + y, pat, j) ==> j == |x|
    ensures !Contains(y, pat)
  {
    var s := x + pat + y;
    assert s[|x| + |pat|..] == y;
    DropOccurrences(s, pat, |x| + |pat|);
  }

  /**
   * Conditions on a pattern and its replacement under which replacing can
   * never create a new occurrence of the pattern: an occurrence cannot start
   * inside a replacement, cannot run from copied text into one, and a
   * replacement is not a prefix of the pattern nor the pattern of it.
   */
  predicate ClearsPattern(pat: string, rep: string)
  {
    && pat != [] && rep != []
    && rep[0] !in pat[1..]
    && pat[0] !in rep[1..]
    && !IsPrefix(rep, pat) && !IsPrefix(pat, rep)
  }

  /**
   * Under ClearsPattern, putting the replacement in front of text without
   * the pattern creates no occurrence.
   */
  lemma {:induction false} PrependReplacement(rep: string, rest: string, pat: string)
    requires ClearsPattern(pat, rep) && !Contains(rest, pat)
    ensures !Contains(rep + rest, pat)
  {
    var out := rep + rest;
    forall p: nat
      ensures !OccursAt(out, pat, p)
    {
      if p >= |rep| && p + |pat| <= |out| {
        assert out[p..p + |pat|] == rest[p - |rep|..p - |rep| + |pat|];
        assert !OccursAt(rest, pat, p - |rep|);
      } else if p == 0 && |pat| <= |out| {
        if |rep| <= |pat| {
          assert out[..|pat|][..|rep|] == rep;
        } else {
          assert out[..|pat|] == rep[..|pat|];
        }
      } else if 0 < p < |rep| && p + |pat| <= |out| {
        assert out[p..p + |pat|][0] == rep[p] == rep[1..][p - 1];
      }
    }
  }

  /**
   * Text without the pattern, followed by text without it that starts with
   * a character found nowhere in the pattern after its first position,
   * holds no occurrence: none can straddle the seam.
   */
  lemma {:induction false} JoinAtSeam(a: string, b: string, pat: string)
    requires pat != [] && b != [] && b[0] !in pat[1..]
    requires !Contains(a, pat) && !Contains(b, pat)
    ensures !Contains(a + b, pat)
  {
    var out := a + b;
    forall p: nat
      ensures !OccursAt(out, pat, p)
    {
      if p + |pat| <= |out| {
        if p >= |a| {
          assert out[p..p + |pat|] == b[p - |a|..p - |a| + |pat|];
          assert !OccursAt(b, pat, p - |a|);
        } else if p + |pat| <= |a| {
          assert out[p..p + |pat|] == a[p..p + |pat|];
          assert !OccursAt(a, pat, p);
        } else {
          assert out[p..p + |pat|][|a| - p] == b[0];
          assert pat[1..][|a| - p - 1] == pat[|a| - p];
        }
      }
    }
  }

  /**
   * Under ClearsPattern, text before the leftmost occurrence, the
   * replacement, and text without the pattern hold no occurrence together.
   */
  lemma {:induction false} ReplacedAround(s: string, pat: string, rep: string, i: nat, after: string)
    requires ClearsPattern(pat, rep) && i <= |s|
    requires forall j: nat :: j < i ==> !OccursAt(s, pat, j)
    requires !Contains(after, pat)
    ensures !Contains(s[..i] + rep + after, pat)
  {
    PrependReplacement(rep, after, pat);
    NoOccurrenceBefore(s, pat, i);
    JoinAtSeam(s[..i], rep + after, pat);
    assert s[..i] + rep + after == s[..i] + (rep + after);
  }

  /** Under ClearsPattern, the result of ReplaceAll holds no occurrence of the pattern. */
  lemma {:induction false} ReplaceLeavesNoOccurrence(s: string, pat: string, rep: string)
    requires ClearsPattern(pat, rep)
    ensures !Contains(ReplaceAll(s, pat, rep), pat)
    decreases |s|
  {
    match Find(s, pat)
    case None =>
    case Some(i) =>
      ReplaceLeavesNoOccurrence(s[i + |pat|..], pat, rep);
      ReplacedAround(s, pat, rep, i, ReplaceAll(s[i + |pat|..], pat, rep));
  }

  /** Under ClearsPattern, replacing a second time changes nothing. */
  lemma {:induction false} ReplaceIdempotent(s: string, pat: string, rep: string)
    requires ClearsPattern(pat, rep)
    ensures ReplaceAll(ReplaceAll(s, pat, rep), pat, rep) == ReplaceAll(s, pat, rep)
  {
    ReplaceLeavesNoOccurrence(s, pat, rep);
    ReplaceWithoutOccurrence(ReplaceAll(s, pat, rep), pat, rep);
  }

  /**
   * Python's `s.split(sep)` for a non-empty separator: the pieces between
   * successive non-overlapping occurrences of `sep`, found left to right.
   */
  function Split(s: string, sep: string): (parts: seq<string>)
    requires sep != []
    ensures |parts| >= 1
    decreases |s|
  {
    match Find(s, sep)
    case None => [s]
    case Some(i) => [s[..i]] + Split(s[i + |sep|..], sep)
  }

  /** Python's `sep.join(parts)`. */
  function Join(parts: seq<string>, sep: string): string
  {
    if |parts| == 0 then []
    else if |parts| == 1 then parts[0]
    else parts[0] + sep + Join(parts[1..], sep)
  }

  lemma {:induction false} JoinCons(part: string, parts: seq<string>, sep: string)
    requires parts != []
    ensures Join([part] + parts, sep) == part + sep + Join(parts, sep)
  {
    assert ([part] + parts)[1..] == parts;
  }

  /**
   * Joining the pieces of a split with the separator gives back the text.
   * With SplitPiecesClean this fixes the pieces only for a separator that
   * cannot overlap itself, as `": "` cannot; SplitFirstPiece fixes where the
   * first piece ends in every case.
   */
  lemma {:induction false} JoinSplit(s: string, sep: string)
    requires sep != []
    ensures Join(Split(s, sep), sep) == s
    decreases |s|
  {
    match Find(s, sep)
    case None =>
    case Some(i) =>
      var rest := s[i + |sep|..];
      JoinSplit(rest, sep);
      JoinCons(s[..i], Split(rest, sep), sep);
      AroundOccurrence(s, sep, i);
  }

  /**
   * One step of ReplaceAllAsJoin: the text before the leftmost occurrence
   * is the first piece, and the replacement follows it.
   */
  lemma {:induction false} ReplaceAsJoinStep(s: string, pat: string, rep: string, i: nat)
    requires pat != [] && Find(s, pat) == Some(i)
    requires ReplaceAll(s[i + |pat|..], pat, rep) == Join(Split(s[i + |pat|..], pat), rep)
    ensures ReplaceAll(s, pat, rep) == Join(Split(s, pat), rep)
  {
    var rest := s[i + |pat|..];
    assert Split(s, pat) == [s[..i]] + Split(rest, pat);
    assert ReplaceAll(s, pat, rep) == s[..i] + rep + ReplaceAll(rest, pat, rep);
    JoinCons(s[..i], Split(rest, pat), rep);
  }

  /**
   * `s.replace(pat, rep)` is `rep.join(s.split(pat))`: the text between the
   * occurrences is copied in order and each occurrence becomes `rep`.
   */
  lemma {:induction false} ReplaceAllAsJoin(s: string, pat: string, rep: string)
    requires pat != []
    ensures ReplaceAll(s, pat, rep) == Join(Split(s, pat), rep)
    decreases |s|
  {
    var found := Find(s, pat);
    if found.Some? {
      var i := found.value;
      ReplaceAllAsJoin(s[i + |pat|..], pat, rep);
      ReplaceAsJoinStep(s, pat, rep, i);
    }
  }

  /**
   * The first piece of a split ends at the leftmost occurrence of the
   * separator, and is the whole text when there is none.
   */
  lemma {:induction false} SplitFirstPiece(s: string, sep: string)
    requires sep != []
    ensures Split(s, sep)[0] == match Find(s, sep) case None => s case Some(i) => s[..i]
  {
  }

  /** No piece of a split holds the separator. */
  lemma {:induction false} SplitPiecesClean(s: string, sep: string)
    requires sep != []
    ensures forall k :: 0 <= k < |Split(s, sep)| ==> !Contains(Split(s, sep)[k], sep)
    decreases |s|
  {
    match Find(s, sep)
    case None =>
    case Some(i) =>
      var rest := s[i + |sep|..];
      var parts := Split(s, sep);
      SplitPiecesClean(rest, sep);
      NoOccurrenceBefore(s, sep, i);
      assert parts == [s[..i]] + Split(rest, sep);
      forall k | 0 <= k < |parts|
        ensures !Contains(parts[k], sep)
      {
        if k > 0 {
          assert parts[k] == Split(rest, sep)[k - 1];
        }
      }
  }

  /** Python's `str.isspace` for one character: the Unicode whitespace set. */
  predicate IsSpace(c: char)
  {
    || c == ' '
    || '\t' <= c <= '\r'
    || '\U{1c}' <= c <= '\U{1f}'
    || c == '\U{85}' || c == '\U{a0}' || c == '\U{1680}'
    || '\U{2000}' <= c <= '\U{200a}'
    || c == '\U{2028}' || c == '\U{2029}' || c == '\U{202f}'
    || c == '\U{205f}' || c == '\U{3000}'
  }

  predicate AllSpace(s: string)
  {
    forall k :: 0 <= k < |s| ==> IsSpace(s[k])
  }

  /** Python's `s.lstrip()`. */
  function TrimStart(s: string): string
    decreases |s|
  {
    if s != [] && IsSpace(s[0]) then TrimStart(s[1..]) else s
  }

  /** `lstrip` removes a prefix made only of whitespace, and all of it. */
  lemma {:induction false} TrimStartRemovesSpace(s: string)
    ensures var r := TrimStart(s);
      && |r| <= |s| && r == s[|s| - |r|..] && AllSpace(s[..|s| - |r|])
      && (r == [] || !IsSpace(r[0]))
    decreases |s|
  {
    if s != [] && IsSpace(s[0]) {
      TrimStartRemovesSpace(s[1..]);
      var r := TrimStart(s[1..]);
      assert s[1..][..|s| - 1 - |r|] == s[1..|s| - |r|];
    }
  }

  /** Python's `s.rstrip()`. */
  function TrimEnd(s: string): string
    decreases |s|
  {
    if s != [] && IsSpace(s[|s| - 1]) then TrimEnd(s[..|s| - 1]) else s
  }

  /** `rstrip` removes a suffix made only of whitespace, and all of it. */
  lemma {:induction false} TrimEndRemovesSpace(s: string)
    ensures var r := TrimEnd(s);
      && |r| <= |s| && r == s[..|r|] && AllSpace(s[|r|..])
      && (r == [] || !IsSpace(r[|r| - 1]))
    decreases |s|
  {
    if s != [] && IsSpace(s[|s| - 1]) {
      TrimEndRemovesSpace(s[..|s| - 1]);
      var r := TrimEnd(s[..|s| - 1]);
      assert s[|r|..] == s[..|s| - 1][|r|..] + [s[|s| - 1]];
    }
  }

  /** Python's `s.strip()`. */
  function Strip(s: string): string
  {
    TrimEnd(TrimStart(s))
  }

  /**
   * What `strip` keeps is a slice of its input that neither starts nor ends
   * with whitespace, and only whitespace surrounds it.
   */
  lemma {:induction false} StripRemovesSpace(s: string)
    ensures var r := Strip(s);
      && (r == [] || (!IsSpace(r[0]) && !IsSpace(r[|r| - 1])))
      && exists i: nat {:trigger s[i..]} ::
        && i + |r| <= |s| && r == s[i..][..|r|]
        && AllSpace(s[..i]) && AllSpace(s[i + |r|..])
  {
    var t := TrimStart(s);
    TrimStartRemovesSpace(s);
    TrimEndRemovesSpace(t);
    var r := TrimEnd(t);
    var i := |s| - |t|;
    assert s[i..] == t;
    assert s[i + |r|..] == t[|r|..];
    if r != [] {
      assert r[0] == t[0];
    }
  }
}
