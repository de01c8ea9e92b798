/**
 * How a section's sentences fall into records, stated independently of the
 * scanners: the section is what follows the first header sentence, every
 * title sentence opens a span, and a span holds the sentences up to the next
 * title. Sentences that come before the first title belong to the first span.
 */
module Sections {
  import opened Seqs
  import opened PyStr

  /** One record's sentences: its title and the other sentences that belong to it. */
  datatype Span = Span(title: string, body: seq<string>)

  /** Every sentence with surrounding whitespace removed, as both scanners see them. */
  function Stripped(sents: seq<string>): (r: seq<string>)
    ensures |r| == |sents|
    decreases |sents|
  {
    if sents == [] then [] else [Strip(sents[0])] + Stripped(sents[1..])
  }

  /** The index of the first sentence satisfying `p`, or `|ys|`. */
  function FirstWhere(p: string -> bool, ys: seq<string>): (r: nat)
    ensures r <= |ys|
    ensures forall k :: 0 <= k < r ==> !p(ys[k])
    ensures r < |ys| ==> p(ys[r])
    decreases |ys|
  {
    if ys == [] || p(ys[0]) then 0 else 1 + FirstWhere(p, ys[1..])
  }

  /** The sentences after the first one satisfying `isHeader`; none when there is no such sentence. */
  function SectionAfter(isHeader: string -> bool, ys: seq<string>): seq<string> {
    var h := FirstWhere(isHeader, ys);
    if h == |ys| then [] else ys[h + 1..]
  }

  /** The spans of `rest`, the first of which has title `title` and begins with `lead`. */
  function SpansFrom(isTitle: string -> bool, lead: seq<string>, title: string, rest: seq<string>): seq<Span>
    decreases |rest|
  {
    var r := FirstWhere(isTitle, rest);
    [Span(title, lead + rest[..r])]
    + (if r == |rest| then [] else SpansFrom(isTitle, [], rest[r], rest[r + 1..]))
  }

  /** The spans of a section: none when it has no title sentence. */
  function Spans(isTitle: string -> bool, ys: seq<string>): seq<Span> {
    var r := FirstWhere(isTitle, ys);
    if r == |ys| then [] else SpansFrom(isTitle, ys[..r], ys[r], ys[r + 1..])
  }

  function Titles(spans: seq<Span>): (r: seq<string>)
    ensures |r| == |spans|
    decreases |spans|
  {
    if spans == [] then [] else [spans[0].title] + Titles(spans[1..])
  }

  function Bodies(spans: seq<Span>): (r: seq<seq<string>>)
    ensures |r| == |spans|
    decreases |spans|
  {
    if spans == [] then [] else [spans[0].body] + Bodies(spans[1..])
  }

  lemma {:induction false} FirstWhereAfter(p: string -> bool, lead: seq<string>, ys: seq<string>)
    requires forall k :: 0 <= k < |lead| ==> !p(lead[k])
    ensures FirstWhere(p, lead + ys) == |lead| + FirstWhere(p, ys)
    decreases |lead|
  {
    if lead != [] {
      var zs := lead + ys;
      assert zs[0] == lead[0];
      assert zs[1..] == lead[1..] + ys;
      assert forall k :: 0 <= k < |lead[1..]| ==> lead[1..][k] == lead[k + 1];
      FirstWhereAfter(p, lead[1..], ys);
    } else {
      assert lead + ys == ys;
    }
  }

  lemma {:induction false} FilterNone(p: string -> bool, xs: seq<string>)
    requires forall k :: 0 <= k < |xs| ==> !p(xs[k])
    ensures Filter(p, xs) == []
    decreases |xs|
  {
    if xs != [] {
      var init := xs[..|xs| - 1];
      assert forall k :: 0 <= k < |init| ==> init[k] == xs[k];
      FilterNone(p, init);
      assert !p(xs[|xs| - 1]);
      assert Filter(p, xs) == Filter(p, init) + [];
    }
  }

  lemma {:induction false} RejectNone(p: string -> bool, xs: seq<string>)
    requires forall k :: 0 <= k < |xs| ==> !p(xs[k])
    ensures Reject(p, xs) == xs
    decreases |xs|
  {
    if xs != [] {
      var init := xs[..|xs| - 1];
      assert forall k :: 0 <= k < |init| ==> init[k] == xs[k];
      RejectNone(p, init);
      assert !p(xs[|xs| - 1]);
      assert Reject(p, xs) == init + [xs[|xs| - 1]];
      assert init + [xs[|xs| - 1]] == xs;
    }
  }

  /** Splitting `ys` at its first title sentence, for filters. */
  lemma {:induction false} SplitAtTitle(p: string -> bool, ys: seq<string>)
    requires FirstWhere(p, ys) < |ys|
    ensures var r := FirstWhere(p, ys);
      && Filter(p, ys) == [ys[r]] + Filter(p, ys[r + 1..])
      && Reject(p, ys) == ys[..r] + Reject(p, ys[r + 1..])
  {
    var r := FirstWhere(p, ys);
    SplitAround(ys, r);
    FilterAround(p, ys[..r], ys[r], ys[r + 1..]);
    RejectAround(p, ys[..r], ys[r], ys[r + 1..]);
  }

  lemma FilterAround(p: string -> bool, lead: seq<string>, x: string, rest: seq<string>)
    requires forall k :: 0 <= k < |lead| ==> !p(lead[k])
    requires p(x)
    ensures Filter(p, (lead + [x]) + rest) == [x] + Filter(p, rest)
  {
    FilterNone(p, lead);
    FilterSingle(p, x);
    FilterAppend(p, lead, [x]);
    assert Filter(p, lead + [x]) == [x];
    FilterAppend(p, lead + [x], rest);
  }

  lemma RejectAround(p: string -> bool, lead: seq<string>, x: string, rest: seq<string>)
    requires forall k :: 0 <= k < |lead| ==> !p(lead[k])
    requires p(x)
    ensures Reject(p, (lead + [x]) + rest) == lead + Reject(p, rest)
  {
    RejectNone(p, lead);
    FilterSingle(p, x);
    RejectAppend(p, lead, [x]);
    assert Reject(p, lead + [x]) == lead;
    RejectAppend(p, lead + [x], rest);
  }

  lemma {:induction false} SpansFromTitles(p: string -> bool, lead: seq<string>, title: string, rest: seq<string>)
    ensures Titles(SpansFrom(p, lead, title, rest)) == [title] + Filter(p, rest)
    decreases |rest|
  {
    var r := FirstWhere(p, rest);
    if r == |rest| {
      FilterNone(p, rest);
      TitlesJoin(SpansFrom(p, lead, title, rest), Span(title, lead + rest[..r]), [], []);
    } else {
      var tail := SpansFrom(p, [], rest[r], rest[r + 1..]);
      SpansFromTitles(p, [], rest[r], rest[r + 1..]);
      SplitAtTitle(p, rest);
      TitlesJoin(SpansFrom(p, lead, title, rest), Span(title, lead + rest[..r]), tail, Filter(p, rest));
    }
  }

  lemma TitlesJoin(spans: seq<Span>, first: Span, tail: seq<Span>, later: seq<string>)
    requires spans == [first] + tail
    requires Titles(tail) == later
    ensures Titles(spans) == [first.title] + later
  {
    assert spans[1..] == tail;
  }

  lemma {:induction false} SpansFromBodies(p: string -> bool, lead: seq<string>, title: string, rest: seq<string>)
    ensures Flatten(Bodies(SpansFrom(p, lead, title, rest))) == lead + Reject(p, rest)
    decreases |rest|
  {
    var r := FirstWhere(p, rest);
    if r == |rest| {
      LastSpanBody(p, lead, title, rest);
    } else {
      SpansFromBodies(p, [], rest[r], rest[r + 1..]);
      NextSpanBodies(p, lead, title, rest);
    }
  }

  lemma LastSpanBody(p: string -> bool, lead: seq<string>, title: string, rest: seq<string>)
    requires FirstWhere(p, rest) == |rest|
    ensures Flatten(Bodies(SpansFrom(p, lead, title, rest))) == lead + Reject(p, rest)
  {
    var body := lead + rest;
    assert rest[..|rest|] == rest;
    assert SpansFrom(p, lead, title, rest) == [Span(title, body)];
    RejectNone(p, rest);
    FlattenBodiesCons(Span(title, body), []);
  }

  lemma NextSpanBodies(p: string -> bool, lead: seq<string>, title: string, rest: seq<string>)
    requires FirstWhere(p, rest) < |rest|
    requires var r := FirstWhere(p, rest);
      Flatten(Bodies(SpansFrom(p, [], rest[r], rest[r + 1..]))) == [] + Reject(p, rest[r + 1..])
    ensures Flatten(Bodies(SpansFrom(p, lead, title, rest))) == lead + Reject(p, rest)
  {
    var r := FirstWhere(p, rest);
    var tail := SpansFrom(p, [], rest[r], rest[r + 1..]);
    SplitAtTitle(p, rest);
    FlattenBodiesCons(Span(title, lead + rest[..r]), tail);
    BodiesJoin(SpansFrom(p, lead, title, rest), title, lead, rest[..r], tail, Reject(p, rest[r + 1..]));
  }

  lemma BodiesJoin(spans: seq<Span>, title: string, lead: seq<string>, mid: seq<string>, tail: seq<Span>, later: seq<string>)
    requires spans == [Span(title, lead + mid)] + tail
    requires Flatten(Bodies(tail)) == later
    ensures Flatten(Bodies(spans)) == lead + (mid + later)
  {
    FlattenBodiesCons(Span(title, lead + mid), tail);
  }

  lemma FlattenBodiesCons(span: Span, spans: seq<Span>)
    ensures Flatten(Bodies([span] + spans)) == span.body + Flatten(Bodies(spans))
  {
    assert ([span] + spans)[1..] == spans;
  }

  lemma {:induction false} TitlesAt(spans: seq<Span>, k: nat)
    requires k < |spans|
    ensures Titles(spans)[k] == spans[k].title
    decreases k
  {
    if k > 0 {
      TitlesAt(spans[1..], k - 1);
    }
  }

  /** The span titles are exactly the title sentences of the section, in order. */
  lemma {:induction false} SpansTitles(p: string -> bool, ys: seq<string>)
    ensures Titles(Spans(p, ys)) == Filter(p, ys)
  {
    var r := FirstWhere(p, ys);
    if r == |ys| {
      FilterNone(p, ys);
    } else {
      SplitAtTitle(p, ys);
      SpansFromTitles(p, ys[..r], ys[r], ys[r + 1..]);
    }
  }

  /** Every span's title is a title sentence. */
  lemma {:induction false} SpanTitleIsTitle(p: string -> bool, ys: seq<string>, k: nat)
    requires k < |Spans(p, ys)|
    ensures p(Spans(p, ys)[k].title)
  {
    SpansTitles(p, ys);
    TitlesAt(Spans(p, ys), k);
    InFilter(p, ys, Spans(p, ys)[k].title);
  }

  /**
   * When the section has a title sentence, the span bodies together hold every
   * other sentence of the section exactly once, in order.
   */
  lemma {:induction false} SpansBodies(p: string -> bool, ys: seq<string>)
    requires Filter(p, ys) != []
    ensures Flatten(Bodies(Spans(p, ys))) == Reject(p, ys)
  {
    var r := FirstWhere(p, ys);
    if r == |ys| {
      FilterNone(p, ys);
    } else {
      SplitAtTitle(p, ys);
      SpansFromBodies(p, ys[..r], ys[r], ys[r + 1..]);
    }
  }

  /** A sentence of one span's body is among the bodies of all the spans. */
  lemma {:induction false} InBodies(spans: seq<Span>, k: nat, x: string)
    requires k < |spans| && x in spans[k].body
    ensures x in Flatten(Bodies(spans))
    decreases k
  {
    if k > 0 {
      InBodies(spans[1..], k - 1, x);
    }
  }

  /** No sentence of a span's body is a title sentence. */
  lemma SpanBodyNoTitle(p: string -> bool, ys: seq<string>, k: nat, x: string)
    requires k < |Spans(p, ys)| && x in Spans(p, ys)[k].body
    ensures !p(x)
  {
    SpansTitles(p, ys);
    SpansBodies(p, ys);
    InBodies(Spans(p, ys), k, x);
    InReject(p, ys, x);
  }

  /** Without a title sentence there are no spans. */
  lemma {:induction false} SpansWithoutTitle(p: string -> bool, ys: seq<string>)
    requires forall k :: 0 <= k < |ys| ==> !p(ys[k])
    ensures Spans(p, ys) == []
  {
  }

  /** A sentence that is not a title extends the open span. */
  lemma {:induction false} SpansFromShift(p: string -> bool, lead: seq<string>, title: string, s: string, ys: seq<string>)
    requires !p(s)
    ensures SpansFrom(p, lead, title, [s] + ys) == SpansFrom(p, lead + [s], title, ys)
  {
    var zs := [s] + ys;
    assert zs[1..] == ys;
    var r := FirstWhere(p, zs);
    assert r == 1 + FirstWhere(p, ys);
    assert lead + zs[..r] == lead + [s] + ys[..r - 1];
    if r < |zs| {
      assert zs[r] == ys[r - 1];
      assert zs[r + 1..] == ys[r..];
    }
  }

  /** A title sentence closes the open span and opens the next. */
  lemma {:induction false} SpansFromClose(p: string -> bool, lead: seq<string>, title: string, s: string, ys: seq<string>)
    requires p(s)
    ensures SpansFrom(p, lead, title, [s] + ys) == [Span(title, lead)] + SpansFrom(p, [], s, ys)
  {
    var zs := [s] + ys;
    assert zs[..0] == [] && zs[1..] == ys;
    assert lead + [] == lead;
  }

  /** The first title sentence after title-free leading sentences opens the first span. */
  lemma {:induction false} SpansOpen(p: string -> bool, lead: seq<string>, s: string, ys: seq<string>)
    requires forall k :: 0 <= k < |lead| ==> !p(lead[k])
    requires p(s)
    ensures Spans(p, lead + ([s] + ys)) == SpansFrom(p, lead, s, ys)
  {
    var zs := lead + ([s] + ys);
    FirstWhereAfter(p, lead, [s] + ys);
    FirstWhereCons(p, s, ys);
    SplitAt(lead, s, ys);
    SpansAtFirst(p, zs, |lead|);
  }

  lemma FirstWhereCons(p: string -> bool, s: string, ys: seq<string>)
    ensures FirstWhere(p, [s] + ys) == if p(s) then 0 else 1 + FirstWhere(p, ys)
  {
    assert ([s] + ys)[0] == s;
    DropCons(s, ys, 0);
  }

  lemma SpansAtFirst(p: string -> bool, ys: seq<string>, r: nat)
    requires r == FirstWhere(p, ys) && r < |ys|
    ensures Spans(p, ys) == SpansFrom(p, ys[..r], ys[r], ys[r + 1..])
  {
  }

  /** The section after a first sentence: the rest when it is a header, else the section of the rest. */
  lemma {:induction false} SectionAfterCons(isHeader: string -> bool, s: string, ys: seq<string>)
    ensures SectionAfter(isHeader, [s] + ys) == if isHeader(s) then ys else SectionAfter(isHeader, ys)
  {
    FirstWhereCons(isHeader, s, ys);
    var h := FirstWhere(isHeader, ys);
    if isHeader(s) {
      DropCons(s, ys, 0);
    } else if h < |ys| {
      DropCons(s, ys, h + 1);
    }
  }

  lemma SplitAt(lead: seq<string>, s: string, ys: seq<string>)
    ensures var zs := lead + ([s] + ys);
      zs[..|lead|] == lead && zs[|lead|] == s && zs[|lead| + 1..] == ys
  {
    var zs := lead + ([s] + ys);
    assert zs[..|lead|] == lead;
    assert zs[|lead| + 1..] == ys;
  }

  lemma {:induction false} StrippedAt(sents: seq<string>)
    ensures forall k :: 0 <= k < |sents| ==> Stripped(sents)[k] == Strip(sents[k])
    decreases |sents|
  {
    if sents != [] {
      StrippedAt(sents[1..]);
      assert forall k :: 1 <= k < |sents| ==> Stripped(sents)[k] == Stripped(sents[1..])[k - 1];
    }
  }

  lemma StrippedEach(sents: seq<string>, ys: seq<string>)
    requires |sents| == |ys|
    requires forall k :: 0 <= k < |sents| ==> Strip(sents[k]) == ys[k]
    ensures Stripped(sents) == ys
  {
    StrippedAt(sents);
  }
}
