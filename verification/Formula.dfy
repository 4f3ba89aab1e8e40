/**
 * The placeholder syntax of formulas, {server:topic}: the scan of CalculData::FindDevices as a function,
 * the grammar it recognises, and the proof that the two agree in both directions.
 */
module Formula {
  import opened Wrappers
  import opened Text

  /** CalculData::Device: the span goes from the opening to the closing brace, both included. */
  datatype Device = Device(server: string, topic: string, start: nat, end: nat)

  datatype ScanError = MissingEndMark | MissingServer

  /** The key under which the cache knows a sensor. */
  function Key(server: string, topic: string): string {
    server + ":" + topic
  }

  function KeyOf(d: Device): string {
    Key(d.server, d.topic)
  }

  /** The devices of a text that begins at offset base, or the first error met; it resumes on the closing brace. */
  function Scan(s: string, base: nat): Result<seq<Device>, ScanError>
    decreases |s|
  {
    var open := IndexOf(s, '{');
    if open == |s| then Success([]) else ScanGroup(s[open + 1..], base + open)
  }

  /** The same from inside a group, the opening brace of which is at offset start. */
  function ScanGroup(inner: string, start: nat): Result<seq<Device>, ScanError>
    decreases |inner|, 1
  {
    var close := IndexOf(inner, '}');
    if close == |inner| then Failure(MissingEndMark)
    else
      var body := inner[..close];
      var colon := LastIndexOf(body, ':');
      if colon == |body| then Failure(MissingServer)
      else
        var end := start + 1 + close;
        Prepend(Device(body[..colon], body[colon + 1..], start, end), Scan(inner[close..], end))
  }

  function Prepend(d: Device, r: Result<seq<Device>, ScanError>): Result<seq<Device>, ScanError> {
    match r
    case Failure(e) => Failure(e)
    case Success(rest) => Success([d] + rest)
  }

  // ----- The grammar -----

  /** A stretch of plain text followed by one placeholder. */
  datatype Piece = Piece(gap: string, server: string, topic: string)

  /** Gaps open no placeholder, placeholders are closed by their last character, and topics hold no colon. */
  ghost predicate WellFormed(p: Piece) {
    Lacks(p.gap, '{') && Lacks(p.server, '}') && Lacks(p.topic, '}') && Lacks(p.topic, ':')
  }

  ghost predicate AllWellFormed(pieces: seq<Piece>) {
    forall p :: p in pieces ==> WellFormed(p)
  }

  function PieceEnd(p: Piece, base: nat): nat {
    base + |p.gap| + 1 + |Key(p.server, p.topic)|
  }

  function PieceThen(p: Piece, rest: string): string {
    p.gap + ("{" + (Key(p.server, p.topic) + ("}" + rest)))
  }

  /** The formula that consists of these pieces followed by rest. */
  function Print(pieces: seq<Piece>, rest: string): string {
    if pieces == [] then rest else PieceThen(pieces[0], Print(pieces[1..], rest))
  }

  function DeviceOf(p: Piece, base: nat): Device {
    Device(p.server, p.topic, base + |p.gap|, PieceEnd(p, base))
  }

  /** The devices of the pieces when the first one begins at offset base. */
  function Layout(pieces: seq<Piece>, base: nat): seq<Device> {
    if pieces == [] then []
    else [DeviceOf(pieces[0], base)] + Layout(pieces[1..], PieceEnd(pieces[0], base) + 1)
  }

  function LayoutEnd(pieces: seq<Piece>, base: nat): nat {
    if pieces == [] then base else LayoutEnd(pieces[1..], PieceEnd(pieces[0], base) + 1)
  }

  // ----- One step of the scan -----

  lemma IndexAfter(head: string, rest: string, c: char)
    requires Lacks(head, c)
    ensures IndexOf(head + rest, c) == |head| + IndexOf(rest, c)
  {
    var s := head + rest;
    assert forall i :: 0 <= i < |head| ==> s[i] == head[i];
    assert forall i :: 0 <= i < |rest| ==> s[|head| + i] == rest[i];
    IndexIsFirst(rest, c, 0);
    IndexIsFirst(s, c, 0);
    assert IsFirst(s, c, 0, |head| + IndexOf(rest, c));
  }

  /** Resuming on a closing brace or right behind it makes no difference. */
  lemma ScanGap(gap: string, rest: string, base: nat)
    requires Lacks(gap, '{')
    ensures Scan(gap + rest, base) == Scan(rest, base + |gap|)
  {
    var s := gap + rest;
    IndexAfter(gap, rest, '{');
    var open := IndexOf(rest, '{');
    if open < |rest| {
      assert s[|gap| + open + 1..] == rest[open + 1..];
    }
  }

  lemma ScanOpen(inner: string, base: nat)
    ensures Scan("{" + inner, base) == ScanGroup(inner, base)
  {
    assert ("{" + inner)[1..] == inner;
  }

  lemma ScanBody(server: string, topic: string, after: string, start: nat)
    requires Lacks(server, '}') && Lacks(topic, '}') && Lacks(topic, ':')
    ensures var end := start + 1 + |Key(server, topic)|;
            ScanGroup(Key(server, topic) + ("}" + after), start)
            == Prepend(Device(server, topic, start, end), Scan("}" + after, end))
  {
    var body := Key(server, topic);
    var inner := body + ("}" + after);
    LacksInKey(server, topic, '}');
    IndexAfter(body, "}" + after, '}');
    assert inner[..|body|] == body && inner[|body|..] == "}" + after;
    SplitAtLastColon(server, topic);
  }

  lemma SplitAtLastColon(server: string, topic: string)
    requires Lacks(topic, ':')
    ensures var key := Key(server, topic);
            LastIndexOf(key, ':') == |server| < |key| && key[..|server|] == server && key[|server| + 1..] == topic
  {
    var key := Key(server, topic);
    LastIndexIsLast(key, ':', |key|);
    assert key[|server|] == ':';
    assert forall i :: |server| < i < |key| ==> key[i] == topic[i - |server| - 1];
    assert IsLast(key, ':', |key|, |server|);
  }

  /** Keys of topics without a colon never alias. */
  lemma KeysNeverAlias(s1: string, t1: string, s2: string, t2: string)
    requires Lacks(t1, ':') && Lacks(t2, ':')
    ensures Key(s1, t1) == Key(s2, t2) <==> s1 == s2 && t1 == t2
  {
    SplitAtLastColon(s1, t1);
    SplitAtLastColon(s2, t2);
  }

  lemma LacksInKey(server: string, topic: string, c: char)
    requires c != ':'
    ensures Lacks(Key(server, topic), c) <==> Lacks(server, c) && Lacks(topic, c)
  {
    var key := Key(server, topic);
    assert forall i :: 0 <= i < |server| ==> server[i] == key[i];
    assert forall i :: 0 <= i < |topic| ==> topic[i] == key[|server| + 1 + i];
  }

  lemma ScanPiece(p: Piece, rest: string, base: nat)
    requires WellFormed(p)
    ensures Scan(PieceThen(p, rest), base) == Prepend(DeviceOf(p, base), Scan(rest, PieceEnd(p, base) + 1))
  {
    var start := base + |p.gap|;
    var inner := Key(p.server, p.topic) + ("}" + rest);
    calc {
      Scan(PieceThen(p, rest), base);
      { ScanGap(p.gap, "{" + inner, base); }
      Scan("{" + inner, start);
      { ScanOpen(inner, start); }
      ScanGroup(inner, start);
      { ScanBody(p.server, p.topic, rest, start); }
      Prepend(DeviceOf(p, base), Scan("}" + rest, PieceEnd(p, base)));
      { ScanGap("}", rest, PieceEnd(p, base)); }
      Prepend(DeviceOf(p, base), Scan(rest, PieceEnd(p, base) + 1));
    }
  }

  // ----- Printing, then scanning -----

  function PrependAll(ds: seq<Device>, r: Result<seq<Device>, ScanError>): Result<seq<Device>, ScanError> {
    if ds == [] then r else Prepend(ds[0], PrependAll(ds[1..], r))
  }

  lemma {:induction false} PrependAllConcatenates(ds: seq<Device>, rest: seq<Device>)
    ensures PrependAll(ds, Success(rest)) == Success(ds + rest)
    decreases |ds|
  {
    if ds != [] {
      PrependAllConcatenates(ds[1..], rest);
      assert [ds[0]] + (ds[1..] + rest) == ds + rest;
    } else {
      assert ds + rest == rest;
    }
  }

  lemma {:induction false} PrependAllFails(ds: seq<Device>, e: ScanError)
    ensures PrependAll(ds, Failure(e)) == Failure(e)
    decreases |ds|
  {
    if ds == [] {
    } else {
      PrependAllFails(ds[1..], e);
    }
  }

  lemma {:induction false} PrependAllAppends(ds: seq<Device>, d: Device, r: Result<seq<Device>, ScanError>)
    ensures PrependAll(ds + [d], r) == PrependAll(ds, Prepend(d, r))
    decreases |ds|
  {
    if ds == [] {
      assert [d][1..] == [];
    } else {
      assert (ds + [d])[1..] == ds[1..] + [d];
      PrependAllAppends(ds[1..], d, r);
    }
  }

  /** Scanning printed pieces lays them out and goes on with whatever follows them. */
  lemma {:induction false} ScanPieces(pieces: seq<Piece>, rest: string, base: nat)
    requires AllWellFormed(pieces)
    ensures Scan(Print(pieces, rest), base)
         == PrependAll(Layout(pieces, base), Scan(rest, LayoutEnd(pieces, base)))
    decreases |pieces|
  {
    if pieces == [] {
    } else {
      var p, later := pieces[0], pieces[1..];
      var next := PieceEnd(p, base) + 1;
      calc {
        Scan(Print(pieces, rest), base);
        { ScanPiece(p, Print(later, rest), base); }
        Prepend(DeviceOf(p, base), Scan(Print(later, rest), next));
        { ScanPieces(later, rest, next); }
        Prepend(DeviceOf(p, base), PrependAll(Layout(later, next), Scan(rest, LayoutEnd(later, next))));
        { assert Layout(pieces, base)[1..] == Layout(later, next); }
        PrependAll(Layout(pieces, base), Scan(rest, LayoutEnd(pieces, base)));
      }
    }
  }

  // ----- The three ways a scan can end -----

  /** No placeholder is left. */
  ghost predicate Plain(tail: string) {
    Lacks(tail, '{')
  }

  /** A placeholder opens and is never closed. */
  ghost predicate Unclosed(tail: string) {
    exists gap, inner :: tail == gap + ("{" + inner) && Lacks(gap, '{') && Lacks(inner, '}')
  }

  /** The next placeholder names no server. */
  ghost predicate Serverless(tail: string) {
    exists gap, body, after ::
      && tail == gap + ("{" + (body + ("}" + after)))
      && Lacks(gap, '{') && Lacks(body, '}') && Lacks(body, ':')
  }

  ghost predicate Generates(pieces: seq<Piece>, tail: string, f: string) {
    AllWellFormed(pieces) && Print(pieces, tail) == f
  }

  lemma ScanPlain(tail: string, base: nat)
    requires Plain(tail)
    ensures Scan(tail, base) == Success([])
  {
    IndexIsFirst(tail, '{', 0);
  }

  lemma ScanUnclosed(tail: string, base: nat)
    requires Unclosed(tail)
    ensures Scan(tail, base) == Failure(MissingEndMark)
  {
    var gap, inner :| tail == gap + ("{" + inner) && Lacks(gap, '{') && Lacks(inner, '}');
    ScanGap(gap, "{" + inner, base);
    ScanOpen(inner, base + |gap|);
    IndexIsFirst(inner, '}', 0);
  }

  lemma ScanServerless(tail: string, base: nat)
    requires Serverless(tail)
    ensures Scan(tail, base) == Failure(MissingServer)
  {
    var gap, body, after :|
      && tail == gap + ("{" + (body + ("}" + after)))
      && Lacks(gap, '{') && Lacks(body, '}') && Lacks(body, ':');
    var inner := body + ("}" + after);
    ScanGap(gap, "{" + inner, base);
    ScanOpen(inner, base + |gap|);
    IndexAfter(body, "}" + after, '}');
    assert inner[..|body|] == body;
    LastIndexIsLast(body, ':', |body|);
  }

  lemma ScanOutcome(pieces: seq<Piece>, tail: string, f: string)
    requires Generates(pieces, tail, f)
    ensures Plain(tail) ==> Scan(f, 0) == Success(Layout(pieces, 0))
    ensures Unclosed(tail) ==> Scan(f, 0) == Failure(MissingEndMark)
    ensures Serverless(tail) ==> Scan(f, 0) == Failure(MissingServer)
  {
    var ds, end := Layout(pieces, 0), LayoutEnd(pieces, 0);
    ScanPieces(pieces, tail, 0);
    if Plain(tail) {
      ScanPlain(tail, end);
      PrependAllConcatenates(ds, []);
      assert ds + [] == ds;
    }
    if Unclosed(tail) {
      ScanUnclosed(tail, end);
      PrependAllFails(ds, MissingEndMark);
    }
    if Serverless(tail) {
      ScanServerless(tail, end);
      PrependAllFails(ds, MissingServer);
    }
  }

  // ----- Every text is pieces followed by one of the three ends -----

  lemma CutAt(s: string, c: char)
    ensures var p := IndexOf(s, c);
            && Lacks(s[..p], c)
            && (p < |s| ==> s == s[..p] + ([c] + s[p + 1..]))
            && (p == |s| ==> Lacks(s, c))
  {
    IndexIsFirst(s, c, 0);
  }

  lemma SplitBody(body: string)
    ensures var colon := LastIndexOf(body, ':');
            if colon == |body| then Lacks(body, ':')
            else Lacks(body[colon + 1..], ':') && body == Key(body[..colon], body[colon + 1..])
  {
    LastIndexIsLast(body, ':', |body|);
  }

  lemma {:induction false} Decompose(s: string) returns (pieces: seq<Piece>, tail: string)
    ensures Generates(pieces, tail, s)
    ensures Plain(tail) || Unclosed(tail) || Serverless(tail)
    decreases |s|
  {
    pieces, tail := [], s;
    CutAt(s, '{');
    var open := IndexOf(s, '{');
    if open < |s| {
      var gap, inner := s[..open], s[open + 1..];
      CutAt(inner, '}');
      var close := IndexOf(inner, '}');
      if close == |inner| {
        assert Unclosed(s);
      } else {
        var body, after := inner[..close], inner[close + 1..];
        SplitBody(body);
        var colon := LastIndexOf(body, ':');
        assert s == gap + ("{" + (body + ("}" + after)));
        if colon == |body| {
          assert Serverless(s);
        } else {
          var p := Piece(gap, body[..colon], body[colon + 1..]);
          LacksInKey(p.server, p.topic, '}');
          var later, rest := Decompose(after);
          pieces, tail := [p] + later, rest;
          assert pieces[1..] == later;
          assert Print(pieces, tail) == PieceThen(p, after);
        }
      }
    }
  }

  /**
   * FindDevices decides the grammar: it succeeds exactly on the printed texts, with the devices and offsets of
   * their pieces, and each error means that the text runs into the corresponding defect behind good pieces.
   */
  lemma ScanDecidesGrammar(f: string)
    ensures Scan(f, 0).Success? <==> exists pieces, tail :: Generates(pieces, tail, f) && Plain(tail)
    ensures Scan(f, 0) == Failure(MissingEndMark) <==> exists pieces, tail :: Generates(pieces, tail, f) && Unclosed(tail)
    ensures Scan(f, 0) == Failure(MissingServer) <==> exists pieces, tail :: Generates(pieces, tail, f) && Serverless(tail)
    ensures forall pieces, tail :: Generates(pieces, tail, f) && Plain(tail) ==> Scan(f, 0) == Success(Layout(pieces, 0))
  {
    var pieces, tail := Decompose(f);
    forall p, t | Generates(p, t, f)
      ensures Plain(t) ==> Scan(f, 0) == Success(Layout(p, 0))
      ensures Unclosed(t) ==> Scan(f, 0) == Failure(MissingEndMark)
      ensures Serverless(t) ==> Scan(f, 0) == Failure(MissingServer)
    {
      ScanOutcome(p, t, f);
    }
  }

  // ----- Scanning, then printing -----

  /** The pieces of f read off at recorded spans. */
  function Recover(f: string, ds: seq<Device>, start: nat): seq<Piece> {
    if ds == [] then []
    else if start <= ds[0].start <= |f| then
      [Piece(f[start..ds[0].start], ds[0].server, ds[0].topic)] + Recover(f, ds[1..], ds[0].end + 1)
    else []
  }

  lemma RecoverPiece(pre: string, p: Piece, rest: string, ds: seq<Device>)
    ensures var grown := pre + PieceThen(p, "");
            Recover(pre + PieceThen(p, rest), [DeviceOf(p, |pre|)] + ds, |pre|)
            == [Piece(p.gap, p.server, p.topic)] + Recover(grown + rest, ds, |grown|)
  {
    var f := pre + PieceThen(p, rest);
    PieceThenSplits(pre, p, rest);
    assert f[|pre|..|pre| + |p.gap|] == p.gap;
    assert ([DeviceOf(p, |pre|)] + ds)[1..] == ds;
    hide PieceThen;
  }

  lemma RecoverNothing(pre: string, tail: string)
    ensures Recover(pre + tail, [], |pre|) == [] && (pre + tail)[|pre|..] == tail
  {
  }

  lemma {:induction false} RecoverLayout(pre: string, pieces: seq<Piece>, tail: string)
    ensures var f := pre + Print(pieces, tail);
            && Recover(f, Layout(pieces, |pre|), |pre|) == pieces
            && LayoutEnd(pieces, |pre|) <= |f|
            && f[LayoutEnd(pieces, |pre|)..] == tail
    decreases |pieces|
  {
    hide PieceThen, Recover, Key;
    if pieces == [] {
      RecoverNothing(pre, tail);
    } else {
      var p, later := pieces[0], pieces[1..];
      var grown := pre + PieceThen(p, "");
      PieceThenSplits(pre, p, Print(later, tail));
      RecoverPiece(pre, p, Print(later, tail), Layout(later, |grown|));
      RecoverLayout(grown, later, tail);
      assert [p] + later == pieces;
    }
  }

  lemma PieceThenSplits(pre: string, p: Piece, rest: string)
    ensures pre + PieceThen(p, rest) == (pre + PieceThen(p, "")) + rest
    ensures |pre + PieceThen(p, "")| == PieceEnd(p, |pre|) + 1
  {
  }

  /**
   * The round trip from the text: on success the formula is its gaps interleaved with {server:topic} at the
   * recorded offsets, and no other pieces print it.
   */
  lemma PrintInvertsScan(f: string)
    requires Scan(f, 0).Success?
    ensures var ds := Scan(f, 0).value;
            var pieces := Recover(f, ds, 0);
            var end := LayoutEnd(pieces, 0);
            && end <= |f| && Plain(f[end..])
            && Generates(pieces, f[end..], f)
            && Layout(pieces, 0) == ds
            && forall others, tail :: Generates(others, tail, f) && Plain(tail) ==> others == pieces && tail == f[end..]
  {
    ScanDecidesGrammar(f);
    forall others, tail | Generates(others, tail, f) && Plain(tail)
      ensures others == Recover(f, Scan(f, 0).value, 0)
      ensures LayoutEnd(others, 0) <= |f| && tail == f[LayoutEnd(others, 0)..]
    {
      RecoverLayout("", others, tail);
      assert "" + Print(others, tail) == f;
    }
  }

  // ----- The recorded spans -----

  /** d's span in a text that begins at offset base: its two braces, and its key with no closing brace in between. */
  ghost predicate SpanOf(s: string, base: nat, d: Device) {
    && base <= d.start < d.end < base + |s|
    && s[d.start - base] == '{' && s[d.end - base] == '}'
    && s[d.start - base + 1..d.end - base] == KeyOf(d)
    && Lacks(KeyOf(d), '}') && Lacks(d.topic, ':')
  }

  ghost predicate Increasing(ds: seq<Device>) {
    forall i, j :: 0 <= i < j < |ds| ==> ds[i].end < ds[j].start
  }

  ghost predicate Covers(ds: seq<Device>, x: nat) {
    exists i :: 0 <= i < |ds| && ds[i].start <= x <= ds[i].end
  }

  ghost predicate AllSpans(s: string, base: nat, ds: seq<Device>) {
    forall i :: 0 <= i < |ds| ==> SpanOf(s, base, ds[i])
  }

  ghost predicate AllCovered(s: string, base: nat, ds: seq<Device>) {
    forall x: nat :: x < |s| && s[x] == '{' ==> Covers(ds, base + x)
  }

  ghost predicate SpansFit(s: string, base: nat, ds: seq<Device>) {
    AllSpans(s, base, ds) && Increasing(ds) && AllCovered(s, base, ds)
  }

  lemma SpanShifts(head: string, s: string, base: nat, d: Device)
    requires SpanOf(s, base + |head|, d)
    ensures SpanOf(head + s, base, d)
  {
    var whole := head + s;
    var from, to := d.start - base, d.end - base;
    assert whole[from] == s[from - |head|] && whole[to] == s[to - |head|];
    assert whole[from + 1..to] == s[from - |head| + 1..to - |head|];
  }

  lemma SpansPrepend(head: string, s: string, base: nat, d: Device, rest: seq<Device>)
    requires AllSpans(s, base + |head|, rest) && SpanOf(head + s, base, d) && d.end < base + |head|
    requires Increasing(rest)
    ensures AllSpans(head + s, base, [d] + rest) && Increasing([d] + rest)
  {
    var ds := [d] + rest;
    forall i | 0 <= i < |ds|
      ensures SpanOf(head + s, base, ds[i])
      ensures 0 < i ==> d.end < ds[i].start
    {
      if 0 < i {
        assert SpanOf(s, base + |head|, rest[i - 1]);
        SpanShifts(head, s, base, rest[i - 1]);
      }
    }
  }

  lemma CoverPrepend(head: string, s: string, base: nat, d: Device, rest: seq<Device>)
    requires AllCovered(s, base + |head|, rest)
    requires base <= d.start < d.end == base + |head| - 1
    requires forall i :: 0 <= i < d.start - base ==> head[i] != '{'
    ensures AllCovered(head + s, base, [d] + rest)
  {
    var ds := [d] + rest;
    forall x: nat | x < |head + s| && (head + s)[x] == '{'
      ensures Covers(ds, base + x)
    {
      if x < |head| {
        assert (head + s)[x] == head[x];
        assert ds[0] == d;
      } else {
        assert s[x - |head|] == '{';
        var i :| 0 <= i < |rest| && rest[i].start <= base + |head| + (x - |head|) <= rest[i].end;
        assert ds[i + 1] == rest[i];
      }
    }
  }

  lemma FirstSpan(gap: string, server: string, topic: string, after: string, base: nat)
    requires Lacks(gap, '{') && Lacks(Key(server, topic), '}') && Lacks(topic, ':')
    ensures var p := Piece(gap, server, topic);
            SpanOf(PieceThen(p, "") + after, base, DeviceOf(p, base))
  {
    var p := Piece(gap, server, topic);
    var d, text, key := DeviceOf(p, base), PieceThen(p, "") + after, Key(server, topic);
    assert text[|gap|] == '{' && text[|gap| + 1 + |key|] == '}';
    assert text[|gap| + 1..|gap| + 1 + |key|] == key;
  }

  lemma SpansOfPieceThen(p: Piece, s: string, base: nat, rest: seq<Device>)
    requires WellFormed(p) && SpansFit(s, PieceEnd(p, base) + 1, rest)
    ensures SpansFit(PieceThen(p, s), base, [DeviceOf(p, base)] + rest)
  {
    hide SpanOf;
    var head := PieceThen(p, "");
    assert PieceThen(p, s) == head + s;
    LacksInKey(p.server, p.topic, '}');
    FirstSpan(p.gap, p.server, p.topic, s, base);
    SpansPrepend(head, s, base, DeviceOf(p, base), rest);
    assert forall i :: 0 <= i < |p.gap| ==> head[i] == p.gap[i];
    CoverPrepend(head, s, base, DeviceOf(p, base), rest);
  }

  lemma NoSpans(tail: string, base: nat)
    requires Plain(tail)
    ensures SpansFit(tail, base, [])
  {
  }

  lemma {:induction false} LayoutSpans(pieces: seq<Piece>, tail: string, base: nat)
    requires AllWellFormed(pieces) && Plain(tail)
    ensures SpansFit(Print(pieces, tail), base, Layout(pieces, base))
    decreases |pieces|
  {
    hide SpansFit;
    if pieces == [] {
      NoSpans(tail, base);
    } else {
      var p, later := pieces[0], pieces[1..];
      LayoutSpans(later, tail, PieceEnd(p, base) + 1);
      SpansOfPieceThen(p, Print(later, tail), base, Layout(later, PieceEnd(p, base) + 1));
    }
  }

  /** The spans are disjoint, increasing, and leave no opening brace uncovered; each encloses exactly its key. */
  lemma ScanSpans(f: string)
    requires Scan(f, 0).Success?
    ensures SpansFit(f, 0, Scan(f, 0).value)
  {
    ScanDecidesGrammar(f);
    var pieces, tail :| Generates(pieces, tail, f) && Plain(tail);
    LayoutSpans(pieces, tail, 0);
  }
}
