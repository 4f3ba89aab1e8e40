/** dependency/StringTools: trimming, splitting, iterated replacement and the comparison ignoring case. */
module StringTools {
  import opened Wrappers
  import opened Text

  // ----- Comparison ignoring case -----

  /** unsigned int: the loop bound of the comparison keeps only 32 bits of the length. */
  const UINT_RANGE: nat := 0x1_0000_0000

  ghost predicate SameIgnoringCase(a: string, b: string) {
    |a| == |b| && forall i :: 0 <= i < |a| ==> ToLower(a[i]) == ToLower(b[i])
  }

  /** What the comparison computes: b has the truncated length of a and matches that much of it. */
  predicate EqualIgnoringCase(a: string, b: string) {
    |b| == |a| % UINT_RANGE && forall i :: 0 <= i < |b| ==> ToLower(a[i]) == ToLower(b[i])
  }

  method IsEqualCaseInsensitive(a: string, b: string) returns (equal: bool)
    ensures equal == EqualIgnoringCase(a, b)
  {
    var sz := |a| % UINT_RANGE;
    if |b| != sz {
      return false;
    }
    for i := 0 to sz
      invariant forall j :: 0 <= j < i ==> ToLower(a[j]) == ToLower(b[j])
    {
      if ToLower(a[i]) != ToLower(b[i]) {
        return false;
      }
    }
    return true;
  }

  /** The comparison is equality up to case for every right operand exactly when the left one fits in 32 bits. */
  lemma ComparisonIsExact(a: string)
    ensures (forall b :: EqualIgnoringCase(a, b) <==> SameIgnoringCase(a, b)) <==> |a| < UINT_RANGE
  {
    assert SameIgnoringCase(a, a);
    if |a| >= UINT_RANGE {
      assert !EqualIgnoringCase(a, a);
    }
  }

  // ----- Trimming -----

  ghost predicate AllSpace(s: string) {
    forall i :: 0 <= i < |s| ==> IsSpace(s[i])
  }

  ghost predicate NoLeadingSpace(s: string) {
    s == "" || !IsSpace(s[0])
  }

  ghost predicate NoTrailingSpace(s: string) {
    s == "" || !IsSpace(s[|s| - 1])
  }

  method LTrim(s: string) returns (r: string)
    ensures NoLeadingSpace(r)
    ensures exists pad :: AllSpace(pad) && s == pad + r
  {
    var i := 0;
    while i < |s| && IsSpace(s[i])
      invariant i <= |s|
      invariant AllSpace(s[..i])
    {
      i := i + 1;
    }
    r := s[i..];
    assert s == s[..i] + r;
  }

  method RTrim(s: string) returns (r: string)
    ensures NoTrailingSpace(r)
    ensures exists pad :: AllSpace(pad) && s == r + pad
  {
    var i := |s|;
    while 0 < i && IsSpace(s[i - 1])
      invariant 0 <= i <= |s|
      invariant AllSpace(s[i..])
    {
      i := i - 1;
    }
    r := s[..i];
    assert s == r + s[i..];
  }

  method Trim(s: string) returns (r: string)
    ensures NoLeadingSpace(r) && NoTrailingSpace(r)
    ensures exists left, right :: AllSpace(left) && AllSpace(right) && s == left + r + right
  {
    var front := RTrim(s);
    r := LTrim(front);
    ghost var right :| AllSpace(right) && s == front + right;
    ghost var left :| AllSpace(left) && front == left + r;
    assert s == left + r + right;
  }

  /** Two trimmed forms of one text are the same text. */
  lemma LeftTrimIsUnique(p1: string, r1: string, p2: string, r2: string)
    requires p1 + r1 == p2 + r2
    requires AllSpace(p1) && AllSpace(p2) && NoLeadingSpace(r1) && NoLeadingSpace(r2)
    ensures p1 == p2 && r1 == r2
  {
    var s := p1 + r1;
    assert forall i :: 0 <= i < |p1| ==> s[i] == p1[i];
    assert forall i :: 0 <= i < |p2| ==> s[i] == p2[i];
    assert r1 != "" ==> !IsSpace(s[|p1|]);
    assert r2 != "" ==> !IsSpace(s[|p2|]);
    assert |p1| == |p2|;
    assert p1 == s[..|p1|] && p2 == s[..|p2|];
    assert r1 == s[|p1|..] && r2 == s[|p2|..];
  }

  lemma RightTrimIsUnique(r1: string, p1: string, r2: string, p2: string)
    requires r1 + p1 == r2 + p2
    requires AllSpace(p1) && AllSpace(p2) && NoTrailingSpace(r1) && NoTrailingSpace(r2)
    ensures p1 == p2 && r1 == r2
  {
    var s := r1 + p1;
    assert forall i :: |r1| <= i < |s| ==> s[i] == p1[i - |r1|];
    assert forall i :: |r2| <= i < |s| ==> s[i] == p2[i - |r2|];
    assert r1 != "" ==> !IsSpace(s[|r1| - 1]);
    assert r2 != "" ==> !IsSpace(s[|r2| - 1]);
    assert |r1| == |r2|;
    assert r1 == s[..|r1|] && r2 == s[..|r2|];
    assert p1 == s[|r1|..] && p2 == s[|r2|..];
  }

  // ----- Split -----

  /** source is key and value joined by the delimiter, with whitespace padding on both of its sides. */
  ghost predicate PaddedJoin(source: string, delimiter: char, key: string, left: string, right: string, value: string) {
    && source == key + left + [delimiter] + right + value
    && Lacks(key, delimiter) && Lacks(left, delimiter)
    && AllSpace(left) && AllSpace(right)
    && NoTrailingSpace(key) && NoLeadingSpace(value)
  }

  ghost predicate Splits(source: string, delimiter: char, key: string, value: string) {
    exists left, right :: PaddedJoin(source, delimiter, key, left, right, value)
  }

  /** Split inverts padded joining: its result is the key and value of every padded join that makes the source. */
  method Split(source: string, delimiter: char) returns (r: Option<(string, string)>)
    ensures r.None? <==> Lacks(source, delimiter)
    ensures r.Some? ==> Splits(source, delimiter, r.value.0, r.value.1)
    ensures forall key, value :: Splits(source, delimiter, key, value) ==> r == Some((key, value))
  {
    var pos := IndexOf(source, delimiter);
    IndexIsFirst(source, delimiter, 0);
    forall key, value | Splits(source, delimiter, key, value)
      ensures pos < |source|
    {
      var left, right :| PaddedJoin(source, delimiter, key, left, right, value);
      JoinDelimiterPosition(source, delimiter, key, left, right, value);
    }
    if pos == |source| {
      return None;
    }
    var key := RTrim(source[..pos]);
    var value := LTrim(source[pos + 1..]);
    ghost var left :| AllSpace(left) && source[..pos] == key + left;
    ghost var right :| AllSpace(right) && source[pos + 1..] == right + value;
    assert source == source[..pos] + [delimiter] + source[pos + 1..];
    assert PaddedJoin(source, delimiter, key, left, right, value) by {
      assert forall i :: 0 <= i < pos ==> source[i] == (key + left)[i];
      assert forall i :: 0 <= i < |key| ==> key[i] == (key + left)[i];
      assert forall i :: 0 <= i < |left| ==> left[i] == (key + left)[|key| + i];
    }
    forall k, v | Splits(source, delimiter, k, v)
      ensures (k, v) == (key, value)
    {
      var l, r :| PaddedJoin(source, delimiter, k, l, r, v);
      JoinIsUnambiguous(source, delimiter, key, left, right, value, k, l, r, v);
    }
    return Some((key, value));
  }

  lemma JoinDelimiterPosition(source: string, delimiter: char, k: string, l: string, r: string, v: string)
    requires PaddedJoin(source, delimiter, k, l, r, v)
    ensures IndexOf(source, delimiter) == |k + l| < |source|
  {
    IndexIsFirst(source, delimiter, 0);
    assert source[|k + l|] == delimiter;
    assert forall i :: 0 <= i < |k + l| ==> source[i] == (if i < |k| then k[i] else l[i - |k|]);
    assert IsFirst(source, delimiter, 0, |k + l|);
  }

  lemma JoinIsUnambiguous(source: string, delimiter: char, k1: string, l1: string, r1: string, v1: string,
                          k2: string, l2: string, r2: string, v2: string)
    requires PaddedJoin(source, delimiter, k1, l1, r1, v1)
    requires PaddedJoin(source, delimiter, k2, l2, r2, v2)
    ensures k1 == k2 && v1 == v2
  {
    var head1, head2 := k1 + l1, k2 + l2;
    var tail1, tail2 := r1 + v1, r2 + v2;
    assert source == head1 + [delimiter] + tail1 && source == head2 + [delimiter] + tail2;
    assert |head1| == |head2| by {
      JoinDelimiterPosition(source, delimiter, k1, l1, r1, v1);
      JoinDelimiterPosition(source, delimiter, k2, l2, r2, v2);
    }
    assert head1 == source[..|head1|] && head2 == source[..|head2|];
    assert tail1 == source[|head1| + 1..] && tail2 == source[|head2| + 1..];
    RightTrimIsUnique(k1, l1, k2, l2);
    LeftTrimIsUnique(r1, v1, r2, v2);
  }
}
