/** The learning-mode highlighter of the generator workspace
    (`renderContent` in components/GeneratorView.tsx).

    A story is split on '\n' into paragraphs. Each paragraph starts as one
    plain segment. Every grammar point, in the order the analysis lists them,
    then every vocabulary item, in order, makes one pass over the segment
    list: each PLAIN segment that contains the candidate is cut at the
    candidate's first occurrence in that segment into a plain prefix, a tagged
    match and a plain suffix, the empty prefix or suffix being dropped. All
    other segments are carried over. The pass walks the list it started with,
    so a suffix it has just made is not searched again for the same
    candidate, while every other plain segment containing the candidate is
    cut too. */
module Highlighter {
  import opened Types
  import opened Text

  datatype Segment =
    | Plain(text: string)
    | Grammar(text: string, point: GrammarPoint)
    | Vocab(text: string, item: VocabItem)

  /** The two kinds of candidate: a grammar point matched case-sensitively on
      its sentence, a vocabulary item matched case-insensitively on its word. */
  datatype Candidate = GrammarCandidate(point: GrammarPoint) | VocabCandidate(item: VocabItem)
  {
    function Needle(): string {
      match this
      case GrammarCandidate(g) => g.sentence
      case VocabCandidate(v) => v.word
    }

    /** Where the match starts in `text`, or -1. */
    function Find(text: string): (r: int)
      ensures r == -1 || (0 <= r && r + |Needle()| <= |text|)
    {
      match this
      case GrammarCandidate(g) => IndexOf(text, g.sentence)
      case VocabCandidate(v) => IndexOf(Lower(text), Lower(v.word))
    }

    /** The tagged segment for a matched slice. */
    function Mark(text: string): Segment {
      match this
      case GrammarCandidate(g) => Grammar(text, g)
      case VocabCandidate(v) => Vocab(text, v)
    }
  }

  function PlainUnlessEmpty(text: string): seq<Segment> {
    if text != "" then [Plain(text)] else []
  }

  /** The three-way split of one segment by one candidate. */
  function SplitSegment(c: Candidate, part: Segment): seq<Segment> {
    if !part.Plain? then [part]
    else
      var idx := c.Find(part.text);
      if idx == -1 then [part]
      else
        var end := idx + |c.Needle()|;
        PlainUnlessEmpty(part.text[..idx]) + [c.Mark(part.text[idx..end])] + PlainUnlessEmpty(part.text[end..])
  }

  /** One candidate's pass over a segment list. */
  function Pass(c: Candidate, parts: seq<Segment>): seq<Segment>
    decreases |parts|
  {
    if parts == [] then []
    else Pass(c, parts[..|parts| - 1]) + SplitSegment(c, parts[|parts| - 1])
  }

  /** The passes of a list of candidates, in list order. */
  function Passes(parts: seq<Segment>, cs: seq<Candidate>): seq<Segment>
    decreases |cs|
  {
    if cs == [] then parts
    else Pass(cs[|cs| - 1], Passes(parts, cs[..|cs| - 1]))
  }

  function GrammarCandidates(gs: seq<GrammarPoint>): (r: seq<Candidate>)
    ensures |r| == |gs| && forall i :: 0 <= i < |gs| ==> r[i] == GrammarCandidate(gs[i])
  {
    seq(|gs|, i requires 0 <= i < |gs| => GrammarCandidate(gs[i]))
  }

  function VocabCandidates(vs: seq<VocabItem>): (r: seq<Candidate>)
    ensures |r| == |vs| && forall i :: 0 <= i < |vs| ==> r[i] == VocabCandidate(vs[i])
  {
    seq(|vs|, i requires 0 <= i < |vs| => VocabCandidate(vs[i]))
  }

  /** The segments of one paragraph: the grammar passes, then the vocabulary passes. */
  function Annotate(paragraph: string, a: LearningAnalysis): seq<Segment> {
    Passes(Passes([Plain(paragraph)], GrammarCandidates(a.grammar)), VocabCandidates(a.vocabulary))
  }

  // ------------------------------------------------------------ measures

  /** The texts of the segments, concatenated in order. */
  function Concat(parts: seq<Segment>): string
    decreases |parts|
  {
    if parts == [] then "" else Concat(parts[..|parts| - 1]) + parts[|parts| - 1].text
  }

  /** The number of tagged (grammar or vocabulary) segments. */
  function Tagged(parts: seq<Segment>): nat
    decreases |parts|
  {
    if parts == [] then 0
    else Tagged(parts[..|parts| - 1]) + (if parts[|parts| - 1].Plain? then 0 else 1)
  }

  /** The number of plain segments in which `c` is found. */
  function Hits(c: Candidate, parts: seq<Segment>): nat
    decreases |parts|
  {
    if parts == [] then 0
    else
      var p := parts[|parts| - 1];
      Hits(c, parts[..|parts| - 1]) + (if p.Plain? && c.Find(p.text) != -1 then 1 else 0)
  }

  /** The grammar segments, in order. */
  function GrammarSegments(parts: seq<Segment>): seq<Segment>
    decreases |parts|
  {
    if parts == [] then []
    else GrammarSegments(parts[..|parts| - 1]) + (if parts[|parts| - 1].Grammar? then [parts[|parts| - 1]] else [])
  }

  /** A tagged segment holds what its candidate matched: a grammar segment
      exactly the sentence, a vocabulary segment a slice as long as the word
      that equals it up to case. */
  predicate Faithful(s: Segment) {
    match s
    case Plain(_) => true
    case Grammar(t, g) => t == g.sentence
    case Vocab(t, v) => |t| == |v.word| && Lower(t) == Lower(v.word)
  }

  predicate AllFaithful(parts: seq<Segment>) {
    forall k :: 0 <= k < |parts| ==> Faithful(parts[k])
  }

  predicate NoEmptyPlain(parts: seq<Segment>) {
    forall k :: 0 <= k < |parts| ==> parts[k].Plain? ==> parts[k].text != ""
  }

  // ----------------------------------------------------- list structure

  lemma {:induction false} ConcatAppend(a: seq<Segment>, b: seq<Segment>)
    ensures Concat(a + b) == Concat(a) + Concat(b)
    decreases |b|
  {
    if b != [] {
      var b' := b[..|b| - 1];
      assert (a + b)[..|a + b| - 1] == a + b';
      assert (a + b)[|a + b| - 1] == b[|b| - 1];
      ConcatAppend(a, b');
    } else {
      assert a + b == a;
    }
  }

  /** A pass treats every segment on its own and keeps their order. */
  lemma {:induction false} PassAppend(c: Candidate, a: seq<Segment>, b: seq<Segment>)
    ensures Pass(c, a + b) == Pass(c, a) + Pass(c, b)
    decreases |b|
  {
    if b != [] {
      var b' := b[..|b| - 1];
      assert (a + b)[..|a + b| - 1] == a + b';
      assert (a + b)[|a + b| - 1] == b[|b| - 1];
      PassAppend(c, a, b');
    } else {
      assert a + b == a;
    }
  }

  lemma {:induction false} PassesAppend(parts: seq<Segment>, cs: seq<Candidate>, ds: seq<Candidate>)
    ensures Passes(parts, cs + ds) == Passes(Passes(parts, cs), ds)
    decreases |ds|
  {
    if ds != [] {
      var ds' := ds[..|ds| - 1];
      assert (cs + ds)[..|cs + ds| - 1] == cs + ds';
      assert (cs + ds)[|cs + ds| - 1] == ds[|ds| - 1];
      PassesAppend(parts, cs, ds');
    } else {
      assert cs + ds == cs;
    }
  }

  lemma PassOfOne(c: Candidate, s: Segment)
    ensures Pass(c, [s]) == SplitSegment(c, s)
  {
    assert [s][..0] == [];
  }

  // -------------------------------------------------- one segment, one split

  lemma FindSlice(c: Candidate, text: string)
    requires c.Find(text) != -1
    ensures Faithful(c.Mark(text[c.Find(text)..c.Find(text) + |c.Needle()|]))
  {
    var i := c.Find(text);
    var t := text[i..i + |c.Needle()|];
    if c.VocabCandidate? {
      LowerSlice(text, i, i + |c.Needle()|);
      assert OccursAt(Lower(text), Lower(c.item.word), i);
    }
  }

  lemma Singleton(x: Segment)
    ensures Concat([x]) == x.text
    ensures Tagged([x]) == (if x.Plain? then 0 else 1)
    ensures GrammarSegments([x]) == (if x.Grammar? then [x] else [])
  {
    assert [x][..0] == [];
  }

  lemma PlainPiece(t: string)
    ensures Concat(PlainUnlessEmpty(t)) == t
    ensures Tagged(PlainUnlessEmpty(t)) == 0
    ensures GrammarSegments(PlainUnlessEmpty(t)) == []
    ensures AllFaithful(PlainUnlessEmpty(t)) && NoEmptyPlain(PlainUnlessEmpty(t))
  {
    if t != "" { Singleton(Plain(t)); }
  }

  /** The pieces of a split: plain prefix, tagged match, plain suffix. */
  lemma SplitPieces(c: Candidate, s: Segment) returns (pre: seq<Segment>, m: Segment, post: seq<Segment>)
    requires s.Plain? && c.Find(s.text) != -1
    ensures var i := c.Find(s.text); var e := i + |c.Needle()|;
      && SplitSegment(c, s) == pre + [m] + post
      && pre == PlainUnlessEmpty(s.text[..i]) && post == PlainUnlessEmpty(s.text[e..])
      && m == c.Mark(s.text[i..e]) && Faithful(m) && !m.Plain?
      && s.text == s.text[..i] + m.text + s.text[e..]
  {
    var i := c.Find(s.text);
    var e := i + |c.Needle()|;
    pre, m, post := PlainUnlessEmpty(s.text[..i]), c.Mark(s.text[i..e]), PlainUnlessEmpty(s.text[e..]);
    FindSlice(c, s.text);
    assert s.text == s.text[..i] + s.text[i..e] + s.text[e..];
  }

  /** Cutting a plain segment keeps its text, makes one faithful tagged
      segment at the first occurrence, and leaves no empty plain piece. */
  lemma SplitSegmentHit(c: Candidate, s: Segment)
    requires s.Plain? && c.Find(s.text) != -1
    ensures var r := SplitSegment(c, s);
      && Concat(r) == s.text
      && Tagged(r) == 1
      && AllFaithful(r) && NoEmptyPlain(r)
  {
    var i := c.Find(s.text);
    var pre, m, post := SplitPieces(c, s);
    HitText(s.text, i, i + |c.Needle()|, pre, m, post);
    PlainPiece(s.text[..i]);
    PlainPiece(s.text[i + |c.Needle()|..]);
    HitShape(pre, m, post);
  }

  /** The tagged segment sits where the first occurrence was: what precedes
      it spells the text before that occurrence. */
  lemma SplitSegmentHitPosition(c: Candidate, s: Segment)
    requires s.Plain? && c.Find(s.text) != -1
    ensures var r := SplitSegment(c, s); var i := c.Find(s.text);
      exists k :: 0 <= k < |r| && r[k] == c.Mark(s.text[i..i + |c.Needle()|]) && Concat(r[..k]) == s.text[..i]
  {
    var i := c.Find(s.text);
    var pre, m, post := SplitPieces(c, s);
    HitText(s.text, i, i + |c.Needle()|, pre, m, post);
    var r := pre + [m] + post;
    assert r[|pre|] == c.Mark(s.text[i..i + |c.Needle()|]) && Concat(r[..|pre|]) == s.text[..i];
  }

  /** The text and tag count of `pre + [m] + post`, plain pieces around one
      tagged segment. */
  lemma HitText(t: string, i: nat, e: nat, pre: seq<Segment>, m: Segment, post: seq<Segment>)
    requires i <= e <= |t| && pre == PlainUnlessEmpty(t[..i]) && post == PlainUnlessEmpty(t[e..])
    requires t == t[..i] + m.text + t[e..] && !m.Plain?
    ensures var r := pre + [m] + post;
      && Concat(r) == t && Tagged(r) == 1
      && |pre| < |r| && r[|pre|] == m && Concat(r[..|pre|]) == t[..i]
  {
    PlainPiece(t[..i]);
    PlainPiece(t[e..]);
    Singleton(m);
    ConcatAppend(pre, [m]);
    ConcatAppend(pre + [m], post);
    TaggedAppend(pre, [m]);
    TaggedAppend(pre + [m], post);
    var r := pre + [m] + post;
    assert r[..|pre|] == pre;
  }

  lemma HitShape(pre: seq<Segment>, m: Segment, post: seq<Segment>)
    requires AllFaithful(pre) && NoEmptyPlain(pre) && AllFaithful(post) && NoEmptyPlain(post)
    requires Faithful(m) && !m.Plain?
    ensures AllFaithful(pre + [m] + post) && NoEmptyPlain(pre + [m] + post)
  {
    InvariantsAppend(pre, [m]);
    InvariantsAppend(pre + [m], post);
  }

  lemma InvariantsAppend(a: seq<Segment>, b: seq<Segment>)
    ensures AllFaithful(a + b) <==> AllFaithful(a) && AllFaithful(b)
    ensures NoEmptyPlain(a + b) <==> NoEmptyPlain(a) && NoEmptyPlain(b)
  {
    var ab: seq<Segment> := a + b;
    assert forall k :: 0 <= k < |a| ==> ab[k] == a[k];
    assert forall k :: 0 <= k < |b| ==> ab[|a| + k] == b[k];
  }

  lemma {:induction false} TaggedAppend(a: seq<Segment>, b: seq<Segment>)
    ensures Tagged(a + b) == Tagged(a) + Tagged(b)
    decreases |b|
  {
    if b != [] {
      var b' := b[..|b| - 1];
      assert (a + b)[..|a + b| - 1] == a + b';
      assert (a + b)[|a + b| - 1] == b[|b| - 1];
      TaggedAppend(a, b');
    } else {
      assert a + b == a;
    }
  }

  /** A segment that is not plain, or that lacks the candidate, is kept as it is. */
  lemma SplitSegmentMiss(c: Candidate, s: Segment)
    requires !s.Plain? || c.Find(s.text) == -1
    ensures SplitSegment(c, s) == [s]
  {
  }

  // --------------------------------------------------------- properties

  /** A pass keeps the text of the paragraph. */
  lemma {:induction false} PassConcat(c: Candidate, parts: seq<Segment>)
    ensures Concat(Pass(c, parts)) == Concat(parts)
    decreases |parts|
  {
    if parts != [] {
      var init, last := parts[..|parts| - 1], parts[|parts| - 1];
      PassConcat(c, init);
      ConcatAppend(Pass(c, init), SplitSegment(c, last));
      if last.Plain? && c.Find(last.text) != -1 {
        SplitSegmentHit(c, last);
      } else {
        assert [last][..0] == [];
      }
    }
  }

  lemma {:induction false} PassesConcat(parts: seq<Segment>, cs: seq<Candidate>)
    ensures Concat(Passes(parts, cs)) == Concat(parts)
    decreases |cs|
  {
    if cs != [] {
      PassesConcat(parts, cs[..|cs| - 1]);
      PassConcat(cs[|cs| - 1], Passes(parts, cs[..|cs| - 1]));
    }
  }

  /** Concatenating the segments of a paragraph gives back the paragraph. */
  lemma AnnotateConcat(paragraph: string, a: LearningAnalysis)
    ensures Concat(Annotate(paragraph, a)) == paragraph
  {
    var g := Passes([Plain(paragraph)], GrammarCandidates(a.grammar));
    PassesConcat([Plain(paragraph)], GrammarCandidates(a.grammar));
    PassesConcat(g, VocabCandidates(a.vocabulary));
    assert [Plain(paragraph)][..0] == [];
  }

  /** An empty analysis leaves a paragraph as one plain segment. */
  lemma AnnotateEmpty(paragraph: string)
    ensures Annotate(paragraph, LearningAnalysis([], [])) == [Plain(paragraph)]
  {
  }

  /** A pass keeps tagged segments faithful and adds only faithful ones. */
  lemma {:induction false} PassFaithful(c: Candidate, parts: seq<Segment>)
    requires AllFaithful(parts)
    ensures AllFaithful(Pass(c, parts))
    decreases |parts|
  {
    if parts != [] {
      var init, last := parts[..|parts| - 1], parts[|parts| - 1];
      assert AllFaithful(init) by {
        forall k | 0 <= k < |init| ensures Faithful(init[k]) { assert init[k] == parts[k]; }
      }
      PassFaithful(c, init);
      if last.Plain? && c.Find(last.text) != -1 {
        SplitSegmentHit(c, last);
      }
      var a, b := Pass(c, init), SplitSegment(c, last);
      forall k | 0 <= k < |a + b| ensures Faithful((a + b)[k]) {
        if k < |a| { assert (a + b)[k] == a[k]; } else { assert (a + b)[k] == b[k - |a|]; }
      }
    }
  }

  /** A pass never leaves an empty plain segment behind unless it was given one. */
  lemma {:induction false} PassNoEmptyPlain(c: Candidate, parts: seq<Segment>)
    requires NoEmptyPlain(parts)
    ensures NoEmptyPlain(Pass(c, parts))
    decreases |parts|
  {
    if parts != [] {
      var init, last := parts[..|parts| - 1], parts[|parts| - 1];
      assert NoEmptyPlain(init) by {
        forall k | 0 <= k < |init| ensures init[k].Plain? ==> init[k].text != "" { assert init[k] == parts[k]; }
      }
      PassNoEmptyPlain(c, init);
      if last.Plain? && c.Find(last.text) != -1 {
        SplitSegmentHit(c, last);
      }
      var a, b := Pass(c, init), SplitSegment(c, last);
      var ab: seq<Segment> := a + b;
      forall k | 0 <= k < |ab| ensures ab[k].Plain? ==> ab[k].text != "" {
        if k < |a| { assert ab[k] == a[k]; } else { assert ab[k] == b[k - |a|]; }
      }
    }
  }

  lemma {:induction false} PassesInvariants(parts: seq<Segment>, cs: seq<Candidate>)
    ensures AllFaithful(parts) ==> AllFaithful(Passes(parts, cs))
    ensures NoEmptyPlain(parts) ==> NoEmptyPlain(Passes(parts, cs))
    decreases |cs|
  {
    if cs != [] {
      var before := Passes(parts, cs[..|cs| - 1]);
      PassesInvariants(parts, cs[..|cs| - 1]);
      if AllFaithful(before) { PassFaithful(cs[|cs| - 1], before); }
      if NoEmptyPlain(before) { PassNoEmptyPlain(cs[|cs| - 1], before); }
    }
  }

  /** Every grammar segment of a paragraph is exactly its grammar point's
      sentence; every vocabulary segment has the length of its word and equals
      it up to case; and a non-empty paragraph has no empty plain segment. */
  lemma AnnotateFaithful(paragraph: string, a: LearningAnalysis)
    ensures AllFaithful(Annotate(paragraph, a))
    ensures paragraph != "" ==> NoEmptyPlain(Annotate(paragraph, a))
  {
    var g := Passes([Plain(paragraph)], GrammarCandidates(a.grammar));
    PassesInvariants([Plain(paragraph)], GrammarCandidates(a.grammar));
    PassesInvariants(g, VocabCandidates(a.vocabulary));
  }

  /** For one candidate, a pass makes exactly one tagged segment for every plain
      segment containing it, and no other. */
  lemma {:induction false} PassTagsEachHit(c: Candidate, parts: seq<Segment>)
    ensures Tagged(Pass(c, parts)) == Tagged(parts) + Hits(c, parts)
    decreases |parts|
  {
    if parts != [] {
      var init, last := parts[..|parts| - 1], parts[|parts| - 1];
      PassTagsEachHit(c, init);
      TaggedAppend(Pass(c, init), SplitSegment(c, last));
      if last.Plain? && c.Find(last.text) != -1 {
        SplitSegmentHit(c, last);
      } else {
        Singleton(last);
      }
    }
  }

  /** A candidate found in no plain segment leaves the list untouched. */
  lemma {:induction false} PassWithoutHits(c: Candidate, parts: seq<Segment>)
    requires Hits(c, parts) == 0
    ensures Pass(c, parts) == parts
    decreases |parts|
  {
    if parts != [] {
      PassWithoutHits(c, parts[..|parts| - 1]);
    }
  }

  /** A vocabulary pass keeps every grammar segment, whole and in order: grammar
      takes precedence over a vocabulary word inside it. */
  lemma {:induction false} VocabPassKeepsGrammar(v: VocabItem, parts: seq<Segment>)
    ensures GrammarSegments(Pass(VocabCandidate(v), parts)) == GrammarSegments(parts)
    decreases |parts|
  {
    if parts != [] {
      var c := VocabCandidate(v);
      var init, last := parts[..|parts| - 1], parts[|parts| - 1];
      VocabPassKeepsGrammar(v, init);
      GrammarSegmentsAppend(Pass(c, init), SplitSegment(c, last));
      if last.Plain? && c.Find(last.text) != -1 {
        var i := c.Find(last.text);
        var pre, m, post := SplitPieces(c, last);
        PlainPiece(last.text[..i]);
        PlainPiece(last.text[i + |c.Needle()|..]);
        Singleton(m);
        GrammarSegmentsAppend(pre, [m]);
        GrammarSegmentsAppend(pre + [m], post);
      } else {
        Singleton(last);
      }
    }
  }

  lemma {:induction false} GrammarSegmentsAppend(a: seq<Segment>, b: seq<Segment>)
    ensures GrammarSegments(a + b) == GrammarSegments(a) + GrammarSegments(b)
    decreases |b|
  {
    if b != [] {
      var b' := b[..|b| - 1];
      assert (a + b)[..|a + b| - 1] == a + b';
      assert (a + b)[|a + b| - 1] == b[|b| - 1];
      GrammarSegmentsAppend(a, b');
    } else {
      assert a + b == a;
    }
  }

  lemma {:induction false} VocabPassesKeepGrammar(parts: seq<Segment>, vs: seq<VocabItem>)
    ensures GrammarSegments(Passes(parts, VocabCandidates(vs))) == GrammarSegments(parts)
    decreases |vs|
  {
    if vs != [] {
      var vs' := vs[..|vs| - 1];
      assert VocabCandidates(vs)[..|vs| - 1] == VocabCandidates(vs');
      VocabPassesKeepGrammar(parts, vs');
      VocabPassKeepsGrammar(vs[|vs| - 1], Passes(parts, VocabCandidates(vs')));
    }
  }

  /** The grammar segments of a paragraph are those the grammar passes made. */
  lemma AnnotateGrammarPrecedence(paragraph: string, a: LearningAnalysis)
    ensures GrammarSegments(Annotate(paragraph, a))
         == GrammarSegments(Passes([Plain(paragraph)], GrammarCandidates(a.grammar)))
  {
    VocabPassesKeepGrammar(Passes([Plain(paragraph)], GrammarCandidates(a.grammar)), a.vocabulary);
  }

  // ------------------------------------------------------------ rendering

  /** The body of the inner `forEach` for one segment: the pieces it pushes. */
  method SplitPart(c: Candidate, part: Segment) returns (pieces: seq<Segment>)
    ensures pieces == SplitSegment(c, part)
  {
    if !part.Plain? {
      return [part];
    }
    var idx := c.Find(part.text);
    if idx == -1 {
      return [part];
    }
    var end := idx + |c.Needle()|;
    var pre, matched, post := part.text[..idx], part.text[idx..end], part.text[end..];
    SplitSegmentIs(c, part, pre, matched, post);
    pieces := [];
    if pre != "" { pieces := [Plain(pre)]; }
    pieces := pieces + [c.Mark(matched)];
    if post != "" { pieces := pieces + [Plain(post)]; }
  }

  lemma SplitSegmentIs(c: Candidate, part: Segment, pre: string, matched: string, post: string)
    requires part.Plain? && c.Find(part.text) != -1
    requires var i := c.Find(part.text); var e := i + |c.Needle()|;
      pre == part.text[..i] && matched == part.text[i..e] && post == part.text[e..]
    ensures SplitSegment(c, part) == PlainUnlessEmpty(pre) + [c.Mark(matched)] + PlainUnlessEmpty(post)
  {
  }

  /** The inner `parts.forEach` of one candidate: the list is rebuilt into
      `newParts`, so a suffix made here is not searched again. */
  method ApplyPass(c: Candidate, parts: seq<Segment>) returns (newParts: seq<Segment>)
    ensures newParts == Pass(c, parts)
  {
    newParts := [];
    for i := 0 to |parts|
      invariant newParts == Pass(c, parts[..i])
    {
      assert parts[..i + 1][..i] == parts[..i];
      var pieces := SplitPart(c, parts[i]);
      newParts := newParts + pieces;
    }
    assert parts[..|parts|] == parts;
  }

  /** One of the two outer `forEach` loops of a paragraph: one pass per
      candidate, in array order. */
  method ApplyPasses(parts: seq<Segment>, cs: seq<Candidate>) returns (out: seq<Segment>)
    ensures out == Passes(parts, cs)
  {
    out := parts;
    for i := 0 to |cs|
      invariant out == Passes(parts, cs[..i])
    {
      assert cs[..i + 1][..i] == cs[..i] && cs[..i + 1][i] == cs[i];
      out := ApplyPass(cs[i], out);
    }
    assert cs[..|cs|] == cs;
  }

  /** One paragraph in learning mode: the grammar loop, then the vocabulary
      loop. */
  method RenderParagraph(paragraph: string, a: LearningAnalysis) returns (parts: seq<Segment>)
    ensures parts == Annotate(paragraph, a)
    ensures Concat(parts) == paragraph
    ensures AllFaithful(parts)
    ensures paragraph != "" ==> NoEmptyPlain(parts)
  {
    parts := ApplyPasses([Plain(paragraph)], GrammarCandidates(a.grammar));
    parts := ApplyPasses(parts, VocabCandidates(a.vocabulary));
    AnnotateConcat(paragraph, a);
    AnnotateFaithful(paragraph, a);
  }

  /** The text of every rendered paragraph. */
  function Texts(rendered: seq<seq<Segment>>): (r: seq<string>)
    ensures |r| == |rendered| && forall k :: 0 <= k < |r| ==> r[k] == Concat(rendered[k])
  {
    seq(|rendered|, k requires 0 <= k < |rendered| => Concat(rendered[k]))
  }

  /** How one paragraph is shown: as it is without an analysis, annotated
      with one. */
  function ParagraphView(paragraph: string, learningData: Option<LearningAnalysis>): seq<Segment> {
    if learningData.None? then [Plain(paragraph)] else Annotate(paragraph, learningData.value)
  }

  /** Either way, the segments of a paragraph spell the paragraph. */
  lemma ParagraphViewConcat(paragraph: string, learningData: Option<LearningAnalysis>)
    ensures Concat(ParagraphView(paragraph, learningData)) == paragraph
  {
    if learningData.None? {
      Singleton(Plain(paragraph));
    } else {
      AnnotateConcat(paragraph, learningData.value);
    }
  }

  lemma TextsOfViews(paragraphs: seq<string>, learningData: Option<LearningAnalysis>, rendered: seq<seq<Segment>>)
    requires |rendered| == |paragraphs|
    requires forall k :: 0 <= k < |paragraphs| ==> rendered[k] == ParagraphView(paragraphs[k], learningData)
    ensures Texts(rendered) == paragraphs
  {
    forall k | 0 <= k < |rendered| ensures Texts(rendered)[k] == paragraphs[k] {
      ParagraphViewConcat(paragraphs[k], learningData);
    }
  }

  /** `renderContent`: nothing without a story; otherwise one segment list per
      '\n'-separated paragraph, a single plain segment each when there is no
      analysis, the annotated segments when there is one. The paragraphs'
      texts, joined by '\n', give back the story. */
  method RenderContent(result: Option<Fiction>, learningData: Option<LearningAnalysis>)
    returns (rendered: Option<seq<seq<Segment>>>)
    ensures rendered.None? <==> result.None?
    ensures result.Some? ==>
      var paragraphs := Split(result.value.content, '\n');
      && |rendered.value| == |paragraphs|
      && forall k :: 0 <= k < |paragraphs| ==> rendered.value[k] == ParagraphView(paragraphs[k], learningData)
    ensures result.Some? ==> Join(Texts(rendered.value), "\n") == result.value.content
  {
    if result.None? {
      return None;
    }
    var paragraphs := Split(result.value.content, '\n');
    var out := RenderParagraphs(paragraphs, learningData);
    TextsOfViews(paragraphs, learningData, out);
    JoinSplit(result.value.content, '\n');
    rendered := Some(out);
  }

  /** `paragraphs.map(...)`: each paragraph rendered on its own. */
  method RenderParagraphs(paragraphs: seq<string>, learningData: Option<LearningAnalysis>)
    returns (out: seq<seq<Segment>>)
    ensures |out| == |paragraphs|
    ensures forall k :: 0 <= k < |paragraphs| ==> out[k] == ParagraphView(paragraphs[k], learningData)
  {
    out := [];
    for k := 0 to |paragraphs|
      invariant |out| == k
      invariant forall j :: 0 <= j < k ==> out[j] == ParagraphView(paragraphs[j], learningData)
    {
      var parts;
      if learningData.None? {
        parts := [Plain(paragraphs[k])];
      } else {
        parts := RenderParagraph(paragraphs[k], learningData.value);
      }
      assert parts == ParagraphView(paragraphs[k], learningData);
      out := out + [parts];
    }
  }

  // ------------------------------------------------------------ scenarios

  // The example strings are parameters fixed by `requires` (`w == "fog"`)
  // rather than literals in the ensures, so that the verifier does not
  // unfold `Annotate` and `IndexOf` over the characters of a literal.

  lemma AnnotateOneWord(paragraph: string, v: VocabItem)
    ensures Annotate(paragraph, LearningAnalysis([v], [])) == SplitSegment(VocabCandidate(v), Plain(paragraph))
  {
    assert VocabCandidates([v]) == [VocabCandidate(v)];
    PassOfOne(VocabCandidate(v), Plain(paragraph));
  }

  lemma AnnotateOneEach(paragraph: string, g: GrammarPoint, v: VocabItem)
    ensures Annotate(paragraph, LearningAnalysis([v], [g]))
         == Pass(VocabCandidate(v), SplitSegment(GrammarCandidate(g), Plain(paragraph)))
  {
    var gc, vc := GrammarCandidate(g), VocabCandidate(v);
    assert GrammarCandidates([g]) == [gc];
    assert VocabCandidates([v]) == [vc];
    assert [gc][..0] == [] && [vc][..0] == [];
    assert Passes([Plain(paragraph)], [gc]) == Pass(gc, [Plain(paragraph)]);
    PassOfOne(gc, Plain(paragraph));
    var afterGrammar := SplitSegment(gc, Plain(paragraph));
    assert Passes(afterGrammar, [vc]) == Pass(vc, afterGrammar);
  }

  /** A plain segment whose first match is `w`, between `pre` and `post`. */
  lemma SplitAround(c: Candidate, pre: string, w: string, post: string)
    requires c.Find(pre + w + post) == |pre| && |w| == |c.Needle()|
    ensures SplitSegment(c, Plain(pre + w + post)) == PlainUnlessEmpty(pre) + [c.Mark(w)] + PlainUnlessEmpty(post)
  {
    var t := pre + w + post;
    assert t[..|pre|] == pre && t[|pre|..|pre| + |w|] == w && t[|pre| + |w|..] == post;
  }

  /** The word matches at `i`, ignoring case, and no earlier position starts
      with its first letter: the case-insensitive search stops at `i`. */
  lemma WordFoundAt(v: VocabItem, p: string, i: nat)
    requires |v.word| > 0 && i + |v.word| <= |p|
    requires forall k :: 0 <= k < |v.word| ==> LowerChar(p[i + k]) == LowerChar(v.word[k])
    requires forall j :: 0 <= j < i ==> LowerChar(p[j]) != LowerChar(v.word[0])
    ensures VocabCandidate(v).Find(p) == i
  {
    var l, n := Lower(p), Lower(v.word);
    MatchAt(l, n, i);
    forall j | 0 <= j < i ensures !OccursAt(l, n, j) {
      MismatchAt(l, n, j);
    }
    IndexOfIs(l, n, i);
  }

  /** The same for a grammar sentence, matched exactly. */
  lemma SentenceFoundAt(g: GrammarPoint, p: string, i: nat)
    requires |g.sentence| > 0 && i + |g.sentence| <= |p|
    requires forall k :: 0 <= k < |g.sentence| ==> p[i + k] == g.sentence[k]
    requires forall j :: 0 <= j < i ==> p[j] != g.sentence[0]
    ensures GrammarCandidate(g).Find(p) == i
  {
    MatchAt(p, g.sentence, i);
    forall j | 0 <= j < i ensures !OccursAt(p, g.sentence, j) {
      MismatchAt(p, g.sentence, j);
    }
    IndexOfIs(p, g.sentence, i);
  }

  /** "The fog crept over the moor." with the word "fog": the word is tagged
      between two plain pieces. */
  lemma FogScenario(v: VocabItem, pre: string, w: string, post: string)
    requires pre == "The " && w == "fog" && post == " crept over the moor." && v.word == w
    ensures Annotate(pre + w + post, LearningAnalysis([v], [])) == [Plain(pre), Vocab(w, v), Plain(post)]
  {
    FogSplit(v, pre, w, post);
    AnnotateOneWord(pre + w + post, v);
  }

  lemma FogSplit(v: VocabItem, pre: string, w: string, post: string)
    requires pre == "The " && w == "fog" && post == " crept over the moor." && v.word == w
    ensures SplitSegment(VocabCandidate(v), Plain(pre + w + post)) == [Plain(pre), Vocab(w, v), Plain(post)]
  {
    var p := pre + w + post;
    assert p[0] == 'T' && p[1] == 'h' && p[2] == 'e' && p[3] == ' ';
    assert p[4] == 'f' && p[5] == 'o' && p[6] == 'g';
    WordFoundAt(v, p, 4);
    SplitAround(VocabCandidate(v), pre, w, post);
  }

  /** A sentence tagged as grammar swallows a vocabulary word inside it. */
  lemma NestedWordScenario(g: GrammarPoint, v: VocabItem)
    requires g.sentence == "She wept, for she knew the truth."
    requires v.word == "wept"
    ensures Annotate(g.sentence, LearningAnalysis([v], [g])) == [Grammar(g.sentence, g)]
  {
    var p := g.sentence;
    var gc := GrammarCandidate(g);
    assert OccursAt(p, p, 0);
    assert gc.Find("" + p + "") == 0;
    SplitAround(gc, "", p, "");
    assert "" + p + "" == p;
    AnnotateOneEach(p, g, v);
    PassOfOne(VocabCandidate(v), Grammar(p, g));
  }

  /** One word, two plain segments containing it ("fog; rain; fog" with the
      grammar sentence "rain"): both are cut, so a single vocabulary item is
      tagged twice. */
  lemma EveryPlainSegmentScenario(g: GrammarPoint, v: VocabItem, w: string, sep: string, r: string)
    requires w == "fog" && sep == "; " && r == "rain" && v.word == w && g.sentence == r
    ensures Annotate(w + sep + r + sep + w, LearningAnalysis([v], [g]))
         == [Vocab(w, v), Plain(sep), Grammar(r, g), Plain(sep), Vocab(w, v)]
  {
    var p := w + sep + r + sep + w;
    var head, tail := w + sep, sep + w;
    assert p == head + r + tail;
    RainSplit(g, head, r, tail);
    AnnotateOneEach(p, g, v);
    FogTwice(g, v, w, sep, r);
  }

  lemma FogTwice(g: GrammarPoint, v: VocabItem, w: string, sep: string, r: string)
    requires w == "fog" && sep == "; " && r == "rain" && v.word == w && g.sentence == r
    ensures Pass(VocabCandidate(v), [Plain(w + sep), Grammar(r, g), Plain(sep + w)])
         == [Vocab(w, v), Plain(sep), Grammar(r, g), Plain(sep), Vocab(w, v)]
  {
    PassOfThree(VocabCandidate(v), Plain(w + sep), Grammar(r, g), Plain(sep + w));
    FogAtHead(v, w, sep);
    FogAtTail(v, sep, w);
  }

  lemma PassOfThree(c: Candidate, a: Segment, b: Segment, d: Segment)
    ensures Pass(c, [a, b, d]) == SplitSegment(c, a) + SplitSegment(c, b) + SplitSegment(c, d)
  {
    assert [a, b, d] == [a, b] + [d];
    PassAppend(c, [a, b], [d]);
    PassAppend(c, [a], [b]);
    PassOfOne(c, a);
    PassOfOne(c, b);
    PassOfOne(c, d);
  }

  lemma RainSplit(g: GrammarPoint, head: string, r: string, tail: string)
    requires head == "fog; " && r == "rain" && tail == "; fog" && g.sentence == r
    ensures SplitSegment(GrammarCandidate(g), Plain(head + r + tail)) == [Plain(head), Grammar(r, g), Plain(tail)]
  {
    var p := head + r + tail;
    assert p[0] == 'f' && p[1] == 'o' && p[2] == 'g' && p[3] == ';' && p[4] == ' ';
    assert p[5] == 'r' && p[6] == 'a' && p[7] == 'i' && p[8] == 'n';
    SentenceFoundAt(g, p, 5);
    SplitAround(GrammarCandidate(g), head, r, tail);
  }

  lemma FogAtHead(v: VocabItem, w: string, rest: string)
    requires w == "fog" && rest == "; " && v.word == w
    ensures SplitSegment(VocabCandidate(v), Plain(w + rest)) == [Vocab(w, v), Plain(rest)]
  {
    assert "" + w + rest == w + rest;
    WordFoundAt(v, w + rest, 0);
    SplitAround(VocabCandidate(v), "", w, rest);
  }

  lemma FogAtTail(v: VocabItem, rest: string, w: string)
    requires w == "fog" && rest == "; " && v.word == w
    ensures SplitSegment(VocabCandidate(v), Plain(rest + w)) == [Plain(rest), Vocab(w, v)]
  {
    var p := rest + w;
    assert p + "" == p;
    assert p[0] == ';' && p[1] == ' ' && p[2] == 'f' && p[3] == 'o' && p[4] == 'g';
    WordFoundAt(v, p, 2);
    SplitAround(VocabCandidate(v), rest, w, "");
  }

  /** The suffix left by a cut is not searched again for the same word, and
      the tagged slice keeps the paragraph's own case ("Fog and fog"). */
  lemma SuffixNotRescannedScenario(v: VocabItem, w: string, rest: string)
    requires w == "Fog" && rest == " and fog" && v.word == "fog"
    ensures Annotate(w + rest, LearningAnalysis([v], [])) == [Vocab(w, v), Plain(rest)]
  {
    var p := w + rest;
    assert "" + w + rest == p;
    assert p[0] == 'F' && p[1] == 'o' && p[2] == 'g';
    assert LowerChar('F') == 'f';
    WordFoundAt(v, p, 0);
    SplitAround(VocabCandidate(v), "", w, rest);
    AnnotateOneWord(p, v);
  }
}
