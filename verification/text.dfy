/** The three JavaScript string operations the configuration parser relies on:
    `String.prototype.trim`, `String.prototype.indexOf` for one character and
    `String.prototype.split` on one separator character. */
module Text {

  /** The characters `trim` removes in this model: space, tab, line feed,
      vertical tab, form feed and carriage return. */
  predicate IsSpace(c: char) {
    c == ' ' || c == '\t' || c == '\n' || c == '\U{0B}' || c == '\U{0C}' || c == '\r'
  }

  /** Every character of `s` in positions `lo` up to (not including) `hi` is whitespace. */
  predicate AllSpaceIn(s: string, lo: int, hi: int) {
    forall k :: lo <= k < hi && 0 <= k < |s| ==> IsSpace(s[k])
  }

  predicate AllSpace(s: string) {
    AllSpaceIn(s, 0, |s|)
  }

  /** The position of the first non-whitespace character at or after `from`,
      or `|s|` when there is none. */
  function SkipSpace(s: string, from: nat): (r: nat)
    requires from <= |s|
    ensures from <= r <= |s|
    decreases |s| - from
  {
    if from < |s| && IsSpace(s[from]) then SkipSpace(s, from + 1) else from
  }

  lemma {:induction false} SkipSpaceSpec(s: string, from: nat)
    requires from <= |s|
    ensures AllSpaceIn(s, from, SkipSpace(s, from))
    ensures SkipSpace(s, from) < |s| ==> !IsSpace(s[SkipSpace(s, from)])
    decreases |s| - from
  {
    if from < |s| && IsSpace(s[from]) {
      SkipSpaceSpec(s, from + 1);
    }
  }

  /** One past the position of the last non-whitespace character before `to`,
      or 0 when there is none. */
  function SkipSpaceBack(s: string, to: nat): (r: nat)
    requires to <= |s|
    ensures r <= to
  {
    if to > 0 && IsSpace(s[to - 1]) then SkipSpaceBack(s, to - 1) else to
  }

  lemma {:induction false} SkipSpaceBackSpec(s: string, to: nat)
    requires to <= |s|
    ensures AllSpaceIn(s, SkipSpaceBack(s, to), to)
    ensures SkipSpaceBack(s, to) > 0 ==> !IsSpace(s[SkipSpaceBack(s, to) - 1])
  {
    if to > 0 && IsSpace(s[to - 1]) {
      SkipSpaceBackSpec(s, to - 1);
    }
  }

  /** JavaScript's `trim`: leading and trailing whitespace removed. */
  function Trim(s: string): (r: string)
    ensures |r| <= |s|
  {
    var lo := SkipSpace(s, 0);
    if lo == |s| then []
    else
      var hi := SkipSpaceBack(s, |s|);
      if lo < hi then s[lo..hi] else []
  }

  /** What `Trim` keeps: the longest infix of `s` that neither starts nor
      ends with whitespace, and nothing at all when `s` is blank. */
  lemma TrimSpec(s: string)
    ensures Trim(s) == [] <==> AllSpace(s)
    ensures Trim(s) != [] ==> !IsSpace(Trim(s)[0]) && !IsSpace(Trim(s)[|Trim(s)| - 1])
    ensures exists i :: 0 <= i <= |s| - |Trim(s)| && Trim(s) == s[i..i + |Trim(s)|]
                        && AllSpaceIn(s, 0, i) && AllSpaceIn(s, i + |Trim(s)|, |s|)
  {
    var lo := SkipSpace(s, 0);
    var hi := SkipSpaceBack(s, |s|);
    SkipSpaceSpec(s, 0);
    SkipSpaceBackSpec(s, |s|);
    if lo == |s| {
      assert s[lo..lo] == [];
    } else {
      assert lo < hi by { assert !IsSpace(s[lo]); }
      assert Trim(s) == s[lo..hi];
      assert !IsSpace(s[lo]);
    }
  }

  /** `Trim` is characterised by what it keeps: any non-blank infix of `s`
      with only whitespace around it is the trimmed text. */
  lemma TrimUnique(s: string, i: nat, j: nat)
    requires i <= j <= |s|
    requires AllSpaceIn(s, 0, i) && AllSpaceIn(s, j, |s|)
    requires i < j ==> !IsSpace(s[i]) && !IsSpace(s[j - 1])
    ensures Trim(s) == s[i..j]
  {
    var lo := SkipSpace(s, 0);
    var hi := SkipSpaceBack(s, |s|);
    SkipSpaceSpec(s, 0);
    SkipSpaceBackSpec(s, |s|);
    if i == j {
      assert AllSpace(s);
    } else {
      assert !IsSpace(s[i]) && !IsSpace(s[j - 1]);
      assert lo < |s| ==> !IsSpace(s[lo]);
      assert hi > 0 ==> !IsSpace(s[hi - 1]);
    }
  }

  /** A text without surrounding whitespace is its own trim; in particular
      trimming twice is trimming once. */
  lemma TrimmedIsFixed(s: string)
    requires s == [] || (!IsSpace(s[0]) && !IsSpace(s[|s| - 1]))
    ensures Trim(s) == s
  {
    TrimUnique(s, 0, |s|);
    assert s[0..|s|] == s;
  }

  /** A text that starts with a non-whitespace character keeps it in front
      when trimmed. */
  lemma TrimKeepsFirst(s: string)
    requires |s| > 0 && !IsSpace(s[0])
    ensures Trim(s) != [] && Trim(s)[0] == s[0]
  {
    var i, j := TrimBounds(s);
    assert i == 0;
    assert j > 0;
  }

  /** One more whitespace character at the end makes no difference to `Trim`. */
  lemma TrimIgnoresTrailingSpace(s: string, c: char)
    requires IsSpace(c)
    ensures Trim(s + [c]) == Trim(s)
  {
    var i, j := TrimBounds(s);
    TrimAppendAt(s, c, i, j);
  }

  /** Where the trimmed text sits in `s`. */
  lemma TrimBounds(s: string) returns (i: nat, j: nat)
    ensures i <= j <= |s| && Trim(s) == s[i..j]
    ensures AllSpaceIn(s, 0, i) && AllSpaceIn(s, j, |s|)
    ensures i < j ==> !IsSpace(s[i]) && !IsSpace(s[j - 1])
  {
    i := SkipSpace(s, 0);
    SkipSpaceSpec(s, 0);
    SkipSpaceBackSpec(s, |s|);
    if i == |s| {
      j := i;
    } else {
      j := SkipSpaceBack(s, |s|);
      assert i < j by { assert !IsSpace(s[i]); }
    }
  }

  /** The trimmed-text characterisation carried over to `s + [c]`. */
  lemma TrimAppendAt(s: string, c: char, i: nat, j: nat)
    requires IsSpace(c) && i <= j <= |s|
    requires AllSpaceIn(s, 0, i) && AllSpaceIn(s, j, |s|)
    requires i < j ==> !IsSpace(s[i]) && !IsSpace(s[j - 1])
    ensures Trim(s + [c]) == s[i..j]
  {
    var sc := s + [c];
    AllSpaceInAppend(s, c, 0, i);
    AllSpaceInAppend(s, c, j, |s|);
    assert sc[i..j] == s[i..j];
    if i < j {
      assert sc[i] == s[i] && sc[j - 1] == s[j - 1];
    }
    TrimUnique(sc, i, j);
  }

  lemma AllSpaceInAppend(s: string, c: char, lo: int, hi: int)
    requires IsSpace(c) && hi <= |s|
    requires AllSpaceIn(s, lo, hi)
    ensures AllSpaceIn(s + [c], lo, hi)
    ensures hi == |s| ==> AllSpaceIn(s + [c], lo, hi + 1)
  {
    assert forall k :: 0 <= k < |s| ==> (s + [c])[k] == s[k];
    assert (s + [c])[|s|] == c;
  }

  /** The position of the first `c` in `s`, or -1 when there is none
      (`indexOf` with a one-character argument). */
  function IndexOf(s: string, c: char): (r: int)
    ensures -1 <= r < |s|
    ensures r == -1 <==> c !in s
    ensures r >= 0 ==> s[r] == c && c !in s[..r]
  {
    if |s| == 0 then -1
    else if s[0] == c then 0
    else
      var k := IndexOf(s[1..], c);
      if k < 0 then -1 else k + 1
  }

  /** A character other than `c` appended at the end does not move the first `c`. */
  lemma IndexOfAppendOther(s: string, c: char, d: char)
    requires d != c
    ensures IndexOf(s + [d], c) == IndexOf(s, c)
  {
    var sd := s + [d];
    assert sd[..|s|] == s;
    assert forall k :: 0 <= k < |s| ==> sd[k] == s[k];
    var k := IndexOf(s, c);
    if k >= 0 {
      assert sd[..k] == s[..k];
    }
  }

  /** The pieces joined back together with `sep` between neighbours. */
  function Join(parts: seq<string>, sep: char): string {
    if |parts| == 0 then []
    else if |parts| == 1 then parts[0]
    else parts[0] + [sep] + Join(parts[1..], sep)
  }

  /** `split` on one separator character: the maximal `sep`-free pieces, in
      order, always at least one (the empty text splits into one empty piece). */
  function Split(s: string, sep: char): (parts: seq<string>)
    ensures |parts| >= 1
    ensures forall i :: 0 <= i < |parts| ==> sep !in parts[i]
    ensures Join(parts, sep) == s
    decreases |s|
  {
    var i := IndexOf(s, sep);
    if i < 0 then [s]
    else
      var rest := Split(s[i + 1..], sep);
      assert s == s[..i] + [sep] + s[i + 1..];
      [s[..i]] + rest
  }

  /** The first `c` in `p + [c] + rest` is the one after `p` when `p` has none. */
  lemma IndexOfAfter(p: string, rest: string, c: char)
    requires c !in p
    ensures IndexOf(p + [c] + rest, c) == |p|
  {
    var s := p + [c] + rest;
    var k := IndexOf(s, c);
    assert s[|p|] == c;
    assert s[..|p|] == p;
    assert forall m :: |p| < m <= |s| ==> s[..m][|p|] == c;
  }

  /** A separator-free first piece is split off as it is. */
  lemma SplitCons(p: string, rest: string, sep: char)
    requires sep !in p
    ensures Split(p + [sep] + rest, sep) == [p] + Split(rest, sep)
  {
    var s := p + [sep] + rest;
    IndexOfAfter(p, rest, sep);
    assert s[..|p|] == p;
    assert s[|p| + 1..] == rest;
  }

  /** Splitting a join of separator-free pieces gives the pieces back. */
  lemma {:induction false} SplitJoin(parts: seq<string>, sep: char)
    requires |parts| >= 1
    requires forall i :: 0 <= i < |parts| ==> sep !in parts[i]
    ensures Split(Join(parts, sep), sep) == parts
    decreases |parts|
  {
    var p := parts[0];
    if |parts| > 1 {
      var rest := Join(parts[1..], sep);
      assert Join(parts, sep) == p + [sep] + rest;
      assert sep !in p;
      SplitCons(p, rest, sep);
      SplitJoin(parts[1..], sep);
      assert parts == [p] + parts[1..];
    } else {
      assert sep !in p;
    }
  }
}
