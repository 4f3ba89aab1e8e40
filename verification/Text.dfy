/** The std::string searches the repository relies on, and the ASCII character tables. */
module Text {

  ghost predicate Lacks(s: string, c: char) {
    forall i :: 0 <= i < |s| ==> s[i] != c
  }

  /** std::string::find of a character from a position on; |s| stands for npos. */
  function IndexFrom(s: string, c: char, start: nat): (p: nat)
    requires start <= |s|
    ensures start <= p <= |s|
    decreases |s| - start
  {
    if start == |s| || s[start] == c then start else IndexFrom(s, c, start + 1)
  }

  function IndexOf(s: string, c: char): (p: nat)
    ensures p <= |s|
  {
    IndexFrom(s, c, 0)
  }

  ghost predicate IsFirst(s: string, c: char, start: nat, p: nat) {
    && start <= p <= |s|
    && (p < |s| ==> s[p] == c)
    && forall i :: start <= i < p ==> s[i] != c
  }

  lemma {:induction false} IndexIsFirst(s: string, c: char, start: nat)
    requires start <= |s|
    ensures IsFirst(s, c, start, IndexFrom(s, c, start))
    ensures forall p :: IsFirst(s, c, start, p) ==> p == IndexFrom(s, c, start)
    decreases |s| - start
  {
    if start < |s| && s[start] != c {
      IndexIsFirst(s, c, start + 1);
      assert forall p :: IsFirst(s, c, start, p) ==> IsFirst(s, c, start + 1, p);
    }
  }

  /** The last position of c before end; |s| stands for npos. */
  function LastBefore(s: string, c: char, end: nat): (p: nat)
    requires end <= |s|
    ensures p < end || p == |s|
  {
    if end == 0 then |s|
    else if s[end - 1] == c then end - 1
    else LastBefore(s, c, end - 1)
  }

  /** std::string::rfind of a character; |s| stands for npos. */
  function LastIndexOf(s: string, c: char): (p: nat)
    ensures p <= |s|
  {
    LastBefore(s, c, |s|)
  }

  ghost predicate IsLast(s: string, c: char, end: nat, p: nat) {
    && (p < end || p == |s|)
    && (p < |s| ==> s[p] == c)
    && forall i :: (if p < |s| then p < i else 0 <= i) && i < end <= |s| ==> s[i] != c
  }

  lemma {:induction false} LastIndexIsLast(s: string, c: char, end: nat)
    requires end <= |s|
    ensures IsLast(s, c, end, LastBefore(s, c, end))
    ensures forall p :: IsLast(s, c, end, p) ==> p == LastBefore(s, c, end)
  {
    if 0 < end && s[end - 1] != c {
      LastIndexIsLast(s, c, end - 1);
      assert forall p :: IsLast(s, c, end, p) ==> IsLast(s, c, end - 1, p);
    }
  }

  /** isspace in the C locale. */
  predicate IsSpace(c: char) {
    c == ' ' || '\t' <= c <= '\r'
  }

  /** tolower in the C locale. */
  function ToLower(c: char): char {
    if 'A' <= c <= 'Z' then c - 'A' + 'a' else c
  }

  predicate IsDigit(c: char) {
    '0' <= c <= '9'
  }
}
