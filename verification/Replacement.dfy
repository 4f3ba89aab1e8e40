/** StringTools::ReplaceAll: replace the first occurrence until none is left, restarting at the front each time. */
module Replacement {
  import opened Wrappers

  ghost predicate OccursAt(s: string, find: string, p: nat) {
    p + |find| <= |s| && forall j {:trigger find[j]} :: 0 <= j < |find| ==> s[p + j] == find[j]
  }

  lemma OccursInTail(s: string, find: string, q: nat)
    requires 0 < q && 0 < |s|
    ensures OccursAt(s, find, q) <==> OccursAt(s[1..], find, q - 1)
  {
    if q + |find| <= |s| {
      assert forall j {:trigger find[j]} :: 0 <= j < |find| ==> s[q + j] == s[1..][q - 1 + j];
    }
  }

  ghost predicate NoneBefore(s: string, find: string, p: nat) {
    forall q: nat :: q < p ==> !OccursAt(s, find, q)
  }

  ghost predicate Absent(s: string, find: string) {
    forall q: nat :: !OccursAt(s, find, q)
  }

  /** std::string::find of a string: the first occurrence, if there is one. */
  function Find(s: string, find: string): (r: Option<nat>)
    ensures r.Some? ==> r.value + |find| <= |s|
  {
    if |s| < |find| then None
    else if s[..|find|] == find then Some(0)
    else
      match Find(s[1..], find)
      case None => None
      case Some(p) => Some(p + 1)
  }

  lemma {:induction false} FindIsFirst(s: string, find: string)
    ensures Find(s, find).None? ==> Absent(s, find)
    ensures Find(s, find).Some? ==> OccursAt(s, find, Find(s, find).value) && NoneBefore(s, find, Find(s, find).value)
  {
    if |find| <= |s| && s[..|find|] != find {
      assert !OccursAt(s, find, 0);
      FindIsFirst(s[1..], find);
      forall q: nat | 0 < q
        ensures OccursAt(s, find, q) <==> OccursAt(s[1..], find, q - 1)
      {
        OccursInTail(s, find, q);
      }
    }
  }

  lemma FindIs(s: string, find: string, p: nat)
    requires OccursAt(s, find, p) && NoneBefore(s, find, p)
    ensures Find(s, find) == Some(p)
  {
    FindIsFirst(s, find);
  }

  lemma FindFails(s: string, find: string)
    ensures Find(s, find).None? <==> Absent(s, find)
  {
    FindIsFirst(s, find);
  }

  /** One turn of the loop. */
  function ReplaceFirst(s: string, find: string, replace: string): string
    requires Find(s, find).Some?
  {
    var p := Find(s, find).value;
    s[..p] + replace + s[p + |find|..]
  }

  /** The loop leaves after exactly n turns. */
  ghost predicate StopsAfter(s: string, find: string, replace: string, n: nat)
    decreases n
  {
    if n == 0 then Find(s, find).None?
    else Find(s, find).Some? && StopsAfter(ReplaceFirst(s, find, replace), find, replace, n - 1)
  }

  ghost function After(s: string, find: string, replace: string, n: nat): string
    requires StopsAfter(s, find, replace, n)
    decreases n
  {
    if n == 0 then s else After(ReplaceFirst(s, find, replace), find, replace, n - 1)
  }

  ghost predicate Terminates(s: string, find: string, replace: string) {
    exists n: nat :: StopsAfter(s, find, replace, n)
  }

  ghost predicate ReplacesTo(s: string, find: string, replace: string, result: string) {
    exists n: nat :: StopsAfter(s, find, replace, n) && result == After(s, find, replace, n)
  }

  /** A call that does not come back has no result, so termination is the caller's business. */
  method ReplaceAll(strExpression: string, find: string, replace: string) returns (result: string)
    requires Terminates(strExpression, find, replace)
    ensures ReplacesTo(strExpression, find, replace, result)
    ensures Find(result, find).None?
  {
    ghost var total: nat :| StopsAfter(strExpression, find, replace, total);
    ghost var n: nat := total;
    result := strExpression;
    while Find(result, find).Some?
      invariant StopsAfter(result, find, replace, n)
      invariant After(result, find, replace, n) == After(strExpression, find, replace, total)
      decreases n
    {
      result := ReplaceFirst(result, find, replace);
      n := n - 1;
    }
    assert n == 0;
  }

  // ----- When does it terminate? -----

  lemma {:induction false} ShorterReplacementTerminates(s: string, find: string, replace: string)
    requires |replace| < |find|
    ensures Terminates(s, find, replace)
    decreases |s|
  {
    if Find(s, find).None? {
      assert StopsAfter(s, find, replace, 0);
    } else {
      var next := ReplaceFirst(s, find, replace);
      ShorterReplacementTerminates(next, find, replace);
      var n: nat :| StopsAfter(next, find, replace, n);
      assert StopsAfter(s, find, replace, n + 1);
    }
  }

  /** With a replacement that contains the search string, the loop stops only if it never starts. */
  lemma {:induction false} SelfFeedingNeverStops(s: string, find: string, replace: string, n: nat)
    requires Find(replace, find).Some?
    requires Find(s, find).Some?
    ensures !StopsAfter(s, find, replace, n)
    decreases n
  {
    if n == 0 {
    } else {
      var p := Find(s, find).value;
      var q := Find(replace, find).value;
      var next := ReplaceFirst(s, find, replace);
      FindIsFirst(replace, find);
      assert forall j {:trigger find[j]} :: 0 <= j < |find| ==> next[p + q + j] == replace[q + j];
      assert OccursAt(next, find, p + q);
      FindFails(next, find);
      SelfFeedingNeverStops(next, find, replace, n - 1);
    }
  }

  /** In particular the empty search string occurs everywhere, and the loop never leaves. */
  lemma EmptySearchNeverStops(s: string, replace: string)
    ensures !Terminates(s, "", replace)
  {
    forall n: nat
      ensures !StopsAfter(s, "", replace, n)
    {
      assert OccursAt(replace, "", 0) && OccursAt(s, "", 0);
      FindFails(replace, "");
      FindFails(s, "");
      SelfFeedingNeverStops(s, "", replace, n);
    }
  }

  lemma SelfFeedingTerminatesExactly(s: string, find: string, replace: string)
    requires Find(replace, find).Some?
    ensures Terminates(s, find, replace) <==> Find(s, find).None?
  {
    if Find(s, find).None? {
      assert StopsAfter(s, find, replace, 0);
    } else {
      forall n: nat
        ensures !StopsAfter(s, find, replace, n)
      {
        SelfFeedingNeverStops(s, find, replace, n);
      }
    }
  }

  // ----- Iterated replacement against a single pass -----

  /** The left-to-right, non-overlapping substitution a reader expects. */
  function OnePass(s: string, find: string, replace: string): string
    requires find != ""
    decreases |s|
  {
    match Find(s, find)
    case None => s
    case Some(p) => s[..p] + replace + OnePass(s[p + |find|..], find, replace)
  }

  ghost function Replacements(s: string, find: string): nat
    requires find != ""
    decreases |s|
  {
    match Find(s, find)
    case None => 0
    case Some(p) => 1 + Replacements(s[p + |find|..], find)
  }

  ghost predicate Uniform(find: string) {
    forall i :: 0 <= i < |find| ==> find[i] == find[0]
  }

  ghost predicate ShareNoChar(a: string, b: string) {
    forall i, j :: 0 <= i < |a| && 0 <= j < |b| ==> a[i] != b[j]
  }

  /** The search string laid over the replacement, k characters into it, agrees with it wherever both reach. */
  ghost predicate Overlaps(find: string, replace: string, k: int) {
    forall i {:trigger find[i]} :: 0 <= i < |find| && 0 <= k + i < |replace| ==> find[i] == replace[k + i]
  }

  /**
   * A replacement can take part in a later occurrence that begins k characters into it. If that is before it, the
   * text in front must not have been an earlier occurrence already.
   */
  ghost predicate Interferes(find: string, replace: string, k: int) {
    && -|find| < k < |replace| && Overlaps(find, replace, k)
    && (k < 0 ==> NoneBefore(find[..-k] + find, find, -k))
  }

  /** What has been replaced never takes part in a later occurrence. */
  ghost predicate Settles(find: string, replace: string) {
    find != "" && forall k :: !Interferes(find, replace, k)
  }

  lemma ForeignSettles(find: string, replace: string)
    requires find != "" && replace != "" && ShareNoChar(find, replace)
    ensures Settles(find, replace)
  {
    forall k
      ensures !Interferes(find, replace, k)
    {
      if -|find| < k < |replace| {
        var i := if k < 0 then -k else 0;
        assert find[i] != replace[k + i];
      }
    }
  }

  lemma UniformSettles(find: string)
    requires find != "" && Uniform(find)
    ensures Settles(find, "")
  {
    forall k
      ensures !Interferes(find, "", k)
    {
      if -|find| < k < 0 {
        assert OccursAt(find[..-k] + find, find, 0);
      }
    }
  }

  /** Text in which no occurrence begins, whatever follows. */
  ghost predicate Barrier(pre: string, find: string) {
    forall t: string, q: nat :: q < |pre| ==> !OccursAt(pre + t, find, q)
  }

  lemma OccursPast(pre: string, t: string, find: string, q: nat)
    ensures OccursAt(pre + t, find, |pre| + q) <==> OccursAt(t, find, q)
  {
    if q + |find| <= |t| {
      assert forall j {:trigger find[j]} :: 0 <= j < |find| ==> (pre + t)[|pre| + q + j] == t[q + j];
    }
  }

  lemma FirstPastBarrier(pre: string, t: string, find: string, q: nat)
    requires find != "" && Barrier(pre, find)
    ensures OccursAt(pre + t, find, q) <==> |pre| <= q && OccursAt(t, find, q - |pre|)
  {
    if q >= |pre| {
      OccursPast(pre, t, find, q - |pre|);
    }
  }

  lemma FindPastBarrier(pre: string, t: string, find: string)
    requires find != "" && Barrier(pre, find)
    ensures Find(pre + t, find) ==
      match Find(t, find) { case None => None case Some(p) => Some(|pre| + p) }
  {
    var s := pre + t;
    forall q: nat
      ensures OccursAt(s, find, q) <==> |pre| <= q && OccursAt(t, find, q - |pre|)
    {
      FirstPastBarrier(pre, t, find, q);
    }
    FindIsFirst(t, find);
    match Find(t, find) {
      case None =>
        FindFails(s, find);
      case Some(p) =>
        assert OccursAt(s, find, |pre| + p);
        FindIs(s, find, |pre| + p);
    }
  }

  /** Equal stretches of two texts hold the same occurrences. */
  lemma OccursInStretch(s: string, t: string, find: string, q: nat, p: nat, n: nat, j: nat)
    requires q + n <= |s| && p + n <= |t| && s[q..q + n] == t[p..p + n] && j + |find| <= n
    ensures OccursAt(s, find, q + j) <==> OccursAt(t, find, p + j)
  {
    var stretch := s[q..q + n];
    assert forall i {:trigger find[i]} :: 0 <= i < |find| ==> s[q + j + i] == stretch[j + i] == t[p + j + i];
  }

  lemma OccursMeansSlice(s: string, find: string, q: nat)
    ensures OccursAt(s, find, q) <==> q + |find| <= |s| && s[q..q + |find|] == find
  {
    if q + |find| <= |s| && s[q..q + |find|] == find {
      assert forall j {:trigger find[j]} :: 0 <= j < |find| ==> s[q + j] == s[q..q + |find|][j];
    }
  }

  /** An occurrence that reaches from the text in front into the replacement interferes. */
  lemma LateOccurrence(head: string, rest: string, t: string, find: string, replace: string, q: nat)
    requires find != "" && OccursAt(head + rest, find, |head|) && NoneBefore(head + rest, find, |head|)
    requires OccursAt(head + replace + t, find, q) && q < |head + replace|
    ensures Interferes(find, replace, q - |head|)
  {
    var s, k := head + replace + t, q - |head|;
    if q + |find| <= |head| {
      assert s[q..q + |find|] == (head + rest)[q..q + |find|];
      OccursInStretch(s, head + rest, find, q, q, |find|, 0);
    } else {
      assert Overlaps(find, replace, k) by {
        assert forall i {:trigger find[i]} :: 0 <= i < |find| && 0 <= k + i < |replace| ==> s[q + i] == replace[k + i];
      }
      if k < 0 {
        EarlierOccurrence(head, rest, find, q);
      }
    }
  }

  /** The text between q and the end of the first occurrence is a beginning of the search string and the search string. */
  lemma EarlierOccurrence(head: string, rest: string, find: string, q: nat)
    requires OccursAt(head + rest, find, |head|) && NoneBefore(head + rest, find, |head|)
    requires q < |head| < q + |find| && forall j {:trigger find[j]} :: 0 <= j < |head| - q ==> head[q + j] == find[j]
    ensures NoneBefore(find[..|head| - q] + find, find, |head| - q)
  {
    var s, n := head + rest, |head| - q + |find|;
    OccursMeansSlice(s, find, |head|);
    assert s[q..|head|] == find[..|head| - q];
    assert s[q..q + n] == s[q..|head|] + s[|head|..|head| + |find|];
    var twice := find[..|head| - q] + find;
    assert twice[0..n] == twice;
    forall j: nat | j < |head| - q
      ensures !OccursAt(twice, find, j)
    {
      OccursInStretch(s, twice, find, q, 0, n, j);
    }
  }

  lemma BarrierGrows(head: string, rest: string, find: string, replace: string)
    requires Settles(find, replace)
    requires Find(head + rest, find) == Some(|head|)
    ensures Barrier(head + replace, find)
  {
    FindIsFirst(head + rest, find);
    hide OccursAt, NoneBefore, Interferes, Find;
    forall t: string, q: nat | q < |head + replace|
      ensures !OccursAt(head + replace + t, find, q)
    {
      if OccursAt(head + replace + t, find, q) {
        LateOccurrence(head, rest, t, find, replace, q);
      }
    }
  }

  lemma ReplaceFirstIs(s: string, head: string, tail: string, find: string, replace: string)
    requires Find(s, find) == Some(|head|) && |head| + |find| <= |s|
    requires s[..|head|] == head && s[|head| + |find|..] == tail
    ensures ReplaceFirst(s, find, replace) == head + replace + tail
  {
  }

  lemma TurnBehindBarrier(pre: string, t: string, find: string, replace: string, p: nat)
    requires Settles(find, replace)
    requires Barrier(pre, find) && Find(t, find) == Some(p)
    ensures p + |find| <= |t|
    ensures Find(pre + t, find).Some?
    ensures Barrier(pre + t[..p] + replace, find)
    ensures ReplaceFirst(pre + t, find, replace) == pre + t[..p] + replace + t[p + |find|..]
  {
    hide Find, Barrier, Interferes;
    FindPastBarrier(pre, t, find);
    var head, tail := pre + t[..p], t[p + |find|..];
    assert Barrier(head + replace, find) by {
      assert pre + t == head + t[p..];
      BarrierGrows(head, t[p..], find, replace);
    }
    assert (pre + t)[..|head|] == head;
    assert (pre + t)[|head| + |find|..] == tail;
    ReplaceFirstIs(pre + t, head, tail, find, replace);
  }

  lemma OneMoreTurn(s: string, next: string, find: string, replace: string, n: nat)
    requires Find(s, find).Some? && ReplaceFirst(s, find, replace) == next
    requires StopsAfter(next, find, replace, n)
    ensures StopsAfter(s, find, replace, n + 1)
    ensures After(s, find, replace, n + 1) == After(next, find, replace, n)
  {
  }

  lemma OnePassTurn(pre: string, t: string, find: string, replace: string, p: nat)
    requires find != "" && Find(t, find) == Some(p)
    ensures pre + OnePass(t, find, replace) == pre + t[..p] + replace + OnePass(t[p + |find|..], find, replace)
    ensures Replacements(t, find) == Replacements(t[p + |find|..], find) + 1
  {
    hide Find;
    var rest := OnePass(t[p + |find|..], find, replace);
    assert pre + (t[..p] + replace + rest) == pre + t[..p] + replace + rest;
  }

  lemma {:induction false} IterationBehindBarrier(pre: string, t: string, find: string, replace: string)
    requires Settles(find, replace)
    requires Barrier(pre, find)
    ensures StopsAfter(pre + t, find, replace, Replacements(t, find))
    ensures After(pre + t, find, replace, Replacements(t, find)) == pre + OnePass(t, find, replace)
    decreases |t|
  {
    match Find(t, find) {
      case None =>
        FindPastBarrier(pre, t, find);
      case Some(p) =>
        TurnBehindBarrier(pre, t, find, replace, p);
        var grown, rest := pre + t[..p] + replace, t[p + |find|..];
        var n := Replacements(rest, find);
        IterationBehindBarrier(grown, rest, find, replace);
        OnePassTurn(pre, t, find, replace, p);
        calc {
          After(pre + t, find, replace, n + 1);
          { OneMoreTurn(pre + t, grown + rest, find, replace, n); }
          After(grown + rest, find, replace, n);
          grown + OnePass(rest, find, replace);
          pre + OnePass(t, find, replace);
        }
    }
  }

  lemma OnlyResult(s: string, find: string, replace: string, n: nat)
    requires StopsAfter(s, find, replace, n)
    ensures Terminates(s, find, replace)
    ensures forall result :: ReplacesTo(s, find, replace, result) <==> result == After(s, find, replace, n)
  {
    hide Find, StopsAfter, After;
    forall m | StopsAfter(s, find, replace, m)
      ensures m == n
    {
      TurnsAreDetermined(s, find, replace, m, n);
    }
  }

  /** When replacements settle, the loop terminates and equals the single pass. */
  lemma IteratedIsOnePass(s: string, find: string, replace: string)
    requires Settles(find, replace)
    ensures Terminates(s, find, replace)
    ensures forall result :: ReplacesTo(s, find, replace, result) <==> result == OnePass(s, find, replace)
  {
    assert Barrier("", find);
    IterationBehindBarrier("", s, find, replace);
    hide *;
    assert "" + s == s && "" + OnePass(s, find, replace) == OnePass(s, find, replace);
    OnlyResult(s, find, replace, Replacements(s, find));
  }

  lemma {:induction false} TurnsAreDetermined(s: string, find: string, replace: string, m: nat, n: nat)
    requires StopsAfter(s, find, replace, m) && StopsAfter(s, find, replace, n)
    ensures m == n
    decreases n
  {
    if Find(s, find).Some? {
      TurnsAreDetermined(ReplaceFirst(s, find, replace), find, replace, m - 1, n - 1);
    }
  }

  lemma NothingIsLeft(s: string, find: string, replace: string, result: string)
    requires ReplacesTo(s, find, replace, result)
    ensures Find(result, find).None?
  {
    var n: nat :| StopsAfter(s, find, replace, n) && result == After(s, find, replace, n);
    AfterIsFree(s, find, replace, n);
  }

  lemma {:induction false} AfterIsFree(s: string, find: string, replace: string, n: nat)
    requires StopsAfter(s, find, replace, n)
    ensures Find(After(s, find, replace, n), find).None?
    decreases n
  {
    if n == 0 {
    } else {
      AfterIsFree(ReplaceFirst(s, find, replace), find, replace, n - 1);
    }
  }

  /** The text in front of an occurrence that interferes, and the text behind. */
  function Ahead(find: string, k: int): string {
    if -|find| < k < 0 then find[..-k] else ""
  }

  function Behind(find: string, replace: string, k: int): string {
    if k < |replace| < |find| + k then find[|replace| - k..] else ""
  }

  lemma InterferenceIsFirst(find: string, replace: string, k: int)
    requires find != "" && Interferes(find, replace, k)
    ensures Find(Ahead(find, k) + find + Behind(find, replace, k), find) == Some(|Ahead(find, k)|)
  {
    var ahead, s := Ahead(find, k), Ahead(find, k) + find + Behind(find, replace, k);
    OccursMeansSlice(s, find, |ahead|);
    forall j: nat | j < |ahead|
      ensures !OccursAt(s, find, j)
    {
      var n := |ahead| + |find|;
      assert s[0..n] == ahead + find == (ahead + find)[0..n];
      OccursInStretch(s, ahead + find, find, 0, 0, n, j);
    }
    FindIs(s, find, |ahead|);
  }

  lemma InterferenceOccurs(find: string, replace: string, k: int)
    requires find != "" && Interferes(find, replace, k)
    ensures OccursAt(Ahead(find, k) + replace + Behind(find, replace, k), find, if k < 0 then 0 else k)
  {
    var ahead, behind := Ahead(find, k), Behind(find, replace, k);
    var r, q := ahead + replace + behind, if k < 0 then 0 else k;
    forall j {:trigger find[j]} | 0 <= j < |find|
      ensures q + j < |r| && r[q + j] == find[j]
    {
      if k + j < 0 {
        assert r[q + j] == ahead[j];
      } else if k + j < |replace| {
        assert r[q + j] == replace[k + j];
      } else {
        assert r[q + j] == behind[k + j - |replace|];
      }
    }
  }

  lemma OnePassOfOne(ahead: string, behind: string, find: string, replace: string)
    requires |behind| < |find| && Find(ahead + find + behind, find) == Some(|ahead|)
    ensures OnePass(ahead + find + behind, find, replace) == ahead + replace + behind
  {
    var s := ahead + find + behind;
    assert s[..|ahead|] == ahead && s[|ahead| + |find|..] == behind;
    assert OnePass(behind, find, replace) == behind;
    hide Find;
  }

  lemma Reoccurs(ahead: string, behind: string, find: string, replace: string, q: nat)
    requires |behind| < |find| && Find(ahead + find + behind, find) == Some(|ahead|)
    requires OccursAt(ahead + replace + behind, find, q)
    ensures var s := ahead + find + behind;
            !ReplacesTo(s, find, replace, OnePass(s, find, replace))
  {
    hide *;
    var s, r := ahead + find + behind, ahead + replace + behind;
    OnePassOfOne(ahead, behind, find, replace);
    OccurrenceIsFound(r, find, q);
    if ReplacesTo(s, find, replace, r) {
      NothingIsLeft(s, find, replace, r);
    }
  }

  lemma OccurrenceIsFound(s: string, find: string, q: nat)
    requires OccursAt(s, find, q)
    ensures Find(s, find).Some?
  {
    FindFails(s, find);
  }

  /** When a replacement interferes, one pass leaves the search string in some text, and the loop does not. */
  lemma InterferenceDiffers(find: string, replace: string, k: int) returns (s: string)
    requires find != "" && Interferes(find, replace, k)
    ensures !ReplacesTo(s, find, replace, OnePass(s, find, replace))
  {
    InterferenceIsFirst(find, replace, k);
    InterferenceOccurs(find, replace, k);
    s := Ahead(find, k) + find + Behind(find, replace, k);
    Reoccurs(Ahead(find, k), Behind(find, replace, k), find, replace, if k < 0 then 0 else k);
  }

  /** The loop is one left-to-right pass on every text exactly when no offset lets the replacement interfere. */
  lemma IteratedIsOnePassExactly(find: string, replace: string)
    requires find != ""
    ensures (forall s, result :: ReplacesTo(s, find, replace, result) <==> result == OnePass(s, find, replace))
            <==> Settles(find, replace)
  {
    hide Interferes, ReplacesTo;
    if Settles(find, replace) {
      forall s, result
        ensures ReplacesTo(s, find, replace, result) <==> result == OnePass(s, find, replace)
      {
        IteratedIsOnePass(s, find, replace);
      }
    } else {
      var k :| Interferes(find, replace, k);
      var s := InterferenceDiffers(find, replace, k);
    }
  }

  // ----- Deletion -----

  /**
   * For a search string with two different characters, deletion goes on where one pass would stop: the pass leaves
   * the search string itself.
   */
  lemma EmptyReplacementDiffers(find: string)
    requires find != "" && !Uniform(find)
    ensures var s := find[..1] + find + find[1..];
            OnePass(s, find, "") == find && Terminates(s, find, "") && !ReplacesTo(s, find, "", find)
  {
    var s, tail := find[..1] + find + find[1..], find[1..];
    if OccursAt(s, find, 0) {
      UniformFromShift(s, find);
    }
    assert OccursAt(s, find, 1);
    FindIs(s, find, 1);
    assert s[1 + |find|..] == tail;
    FindFails(tail, find);
    assert s[..1] + "" + tail == find;
    ShorterReplacementTerminates(s, find, "");
    assert OccursAt(find, find, 0);
    FindFails(find, find);
    if ReplacesTo(s, find, "", find) {
      NothingIsLeft(s, find, "", find);
    }
  }

  /** A text that begins with the search string and again one character later repeats one character. */
  lemma UniformFromShift(s: string, find: string)
    requires find != "" && OccursAt(s, find, 0) && OccursAt(s, find, 1)
    ensures Uniform(find)
  {
    forall j: nat | j < |find|
      ensures find[j] == find[0]
    {
      ShiftedEquals(s, find, j);
    }
  }

  lemma {:induction false} ShiftedEquals(s: string, find: string, j: nat)
    requires OccursAt(s, find, 0) && OccursAt(s, find, 1) && j < |find|
    ensures find[j] == find[0]
  {
    if j == 0 {
    } else {
      ShiftedEquals(s, find, j - 1);
      assert s[0 + j] == find[j] && s[1 + (j - 1)] == find[j - 1];
    }
  }

  /** Deleting is one left-to-right pass on every text exactly when the search string repeats a single character. */
  lemma DeletionIsOnePassExactly(find: string)
    requires find != ""
    ensures (forall s, result :: ReplacesTo(s, find, "", result) <==> result == OnePass(s, find, ""))
            <==> Uniform(find)
  {
    if Uniform(find) {
      UniformSettles(find);
      IteratedIsOnePassExactly(find, "");
    } else {
      EmptyReplacementDiffers(find);
    }
  }
}
