/** `renderFormattedBody` of components/OutputSection.tsx: the body is split
    into paragraphs at every blank line ("\n\n"), whitespace-only paragraphs
    are dropped, each paragraph is split by the capturing pattern
    (\*\*.*?\*\*) into alternating plain and bold parts, and the paragraph at
    split index 0 carries the drop cap. The JSX elements are modelled as
    values: a paragraph with its key, drop-cap flag and children. */
module Render {
  import opened JsText
  import opened Markdown
  import opened Seqs

  /** A child of a rendered paragraph: text, or text inside `<strong>`. */
  datatype Segment = Plain(text: string) | Bold(text: string)

  /** A rendered `<p>`: its key (the split index), whether it has the drop
      cap, and the paragraph text its children (`Children(text)`) come from. */
  datatype Paragraph = Paragraph(key: nat, dropCap: bool, text: string)

  // ---------------------------------------------------------------------
  // Splitting a paragraph at bold markers.

  /** The first position at which `**(.*?)**` matches, with the match length. */
  function FirstSpan(s: string): (r: Option<(nat, nat)>)
    ensures r.Some? ==> 4 <= r.value.1 && r.value.0 + r.value.1 <= |s|
    decreases |s|
  {
    if s == [] then None
    else match SpanAt(s, "**")
      case Some(n) => Some((0, n))
      case None =>
        match FirstSpan(s[1..])
        case None => None
        case Some((i, n)) => Some((i + 1, n))
  }

  /** What the search finds is a match of the pattern. */
  lemma {:induction false} FirstSpanMatches(s: string)
    requires FirstSpan(s).Some?
    ensures SpanAt(s[FirstSpan(s).value.0..], "**") == Some(FirstSpan(s).value.1)
    decreases |s|
  {
    if SpanAt(s, "**").None? {
      FirstSpanMatches(s[1..]);
      var i := FirstSpan(s[1..]).value.0;
      assert s[i + 1..] == s[1..][i..];
    }
  }

  /** The search finds the leftmost match, as the scan of `split` does. */
  lemma {:induction false} FirstSpanIsFirst(s: string)
    ensures var r := FirstSpan(s);
      forall i :: 0 <= i <= |s| && (r.None? || i < r.value.0) ==> SpanAt(s[i..], "**").None?
    decreases |s|
  {
    var r := FirstSpan(s);
    if s != [] && SpanAt(s, "**").None? {
      FirstSpanIsFirst(s[1..]);
      forall i | 1 <= i <= |s| ensures s[i..] == s[1..][i - 1..] { }
    }
  }

  /** The shape of a match of `**(.*?)**`: two asterisks, a line-terminator
      free inner text, two asterisks. */
  predicate IsBoldMatch(m: string) {
    |m| >= 4 && m[..2] == "**" && m[|m| - 2..] == "**" && OnOneLine(m[2..|m| - 2])
  }

  /** The text a match covers has the shape of a match. */
  lemma SpanIsBoldMatch(t: string, n: nat)
    requires SpanAt(t, "**") == Some(n)
    ensures IsBoldMatch(t[..n])
  {
    assert t[..n][..2] == t[..2];
    assert t[..n][n - 2..] == t[n - 2..n];
    assert t[..n][2..n - 2] == t[2..n - 2];
  }

  /** `paragraph.split(/(\*\*.*?\*\*)/g)`: the text before each match, the
      match itself (the captured group), and finally the text after the last
      match. Parts at odd indices are the matches. */
  function BoldSplit(s: string): (parts: seq<string>)
    ensures |parts| % 2 == 1
    decreases |s|
  {
    match FirstSpan(s)
    case None => [s]
    case Some((i, n)) => [s[..i], s[i..i + n]] + BoldSplit(s[i + n..])
  }

  lemma FirstSpanIsBoldMatch(s: string, i: nat, n: nat)
    requires FirstSpan(s) == Some((i, n))
    ensures IsBoldMatch(s[i..i + n])
  {
    FirstSpanMatches(s);
    var t := s[i..];
    SpanIsBoldMatch(t, n);
    assert t[..n] == s[i..i + n];
  }

  /** One step of the split: the text before the first match, the match,
      then the split of the rest. */
  lemma BoldSplitStep(s: string, i: nat, n: nat)
    requires FirstSpan(s) == Some((i, n))
    ensures BoldSplit(s) == [s[..i], s[i..i + n]] + BoldSplit(s[i + n..])
  {
  }

  /** Every part at an odd index is a match of the bold pattern. */
  predicate OddPartsMatch(parts: seq<string>) {
    forall j :: 0 <= j < |parts| && j % 2 == 1 ==> IsBoldMatch(parts[j])
  }

  lemma OddPartsMatchCons(parts: seq<string>, a: string, b: string, rest: seq<string>)
    requires parts == [a, b] + rest
    requires IsBoldMatch(b) && OddPartsMatch(rest)
    ensures OddPartsMatch(parts)
  {
    forall j | 0 <= j < |parts| && j % 2 == 1 ensures IsBoldMatch(parts[j]) {
      if j >= 2 {
        assert parts[j] == rest[j - 2];
      }
    }
  }

  /** The split of a text whose first match is followed by a rest whose
      split has matches at odd indices has them too. */
  lemma BoldSplitMatchesStep(s: string, i: nat, n: nat)
    requires FirstSpan(s) == Some((i, n))
    requires OddPartsMatch(BoldSplit(s[i + n..]))
    ensures OddPartsMatch(BoldSplit(s))
  {
    var a, b, rest := s[..i], s[i..i + n], BoldSplit(s[i + n..]);
    BoldSplitStep(s, i, n);
    FirstSpanIsBoldMatch(s, i, n);
    OddPartsMatchCons(BoldSplit(s), a, b, rest);
  }

  /** The parts at odd indices are matches of the bold pattern. */
  lemma {:induction false} BoldSplitMatches(s: string)
    ensures OddPartsMatch(BoldSplit(s))
    decreases |s|
  {
    match FirstSpan(s)
    case None =>
    case Some((i, n)) =>
      BoldSplitMatches(s[i + n..]);
      BoldSplitMatchesStep(s, i, n);
  }

  function Concat(parts: seq<string>): string {
    if parts == [] then "" else parts[0] + Concat(parts[1..])
  }

  /** The split loses nothing: joining the parts gives the paragraph back. */
  lemma {:induction false} ConcatBoldSplit(s: string)
    ensures Concat(BoldSplit(s)) == s
    decreases |s|
  {
    match FirstSpan(s)
    case None =>
      assert Concat([s]) == s + Concat([]);
    case Some((i, n)) =>
      ConcatBoldSplit(s[i + n..]);
      ConcatBoldSplitStep(s, i, n);
  }

  lemma ConcatBoldSplitStep(s: string, i: nat, n: nat)
    requires FirstSpan(s) == Some((i, n))
    requires Concat(BoldSplit(s[i + n..])) == s[i + n..]
    ensures Concat(BoldSplit(s)) == s
  {
    var a, b, t := s[..i], s[i..i + n], s[i + n..];
    BoldSplitStep(s, i, n);
    ConcatTwo(BoldSplit(s), a, b, BoldSplit(t));
    assert Concat(BoldSplit(s)) == a + b + t;
    Joined3(s, i, i + n);
  }

  lemma ConcatTwo(parts: seq<string>, a: string, b: string, rest: seq<string>)
    requires parts == [a, b] + rest
    ensures Concat(parts) == a + b + Concat(rest)
  {
    assert ([a, b] + rest)[1..] == [b] + rest;
    assert ([b] + rest)[1..] == rest;
  }

  // ---------------------------------------------------------------------
  // Classifying the parts.

  /** `part.slice(2, -2)`. */
  function SliceInner(part: string): (r: string)
    ensures |part| >= 4 ==> r == part[2..|part| - 2]
    ensures |part| < 4 ==> r == ""
  {
    if |part| - 2 > 2 then part[2..|part| - 2] else ""
  }

  /** The child `renderFormattedBody` makes of a part, as written: any part
      that starts and ends with `**` becomes bold, `**` and `***` included. */
  function ClassifyAsWritten(part: string): (seg: Segment)
    ensures seg.Bold? <==> |part| >= 2 && part[..2] == "**" && part[|part| - 2..] == "**"
  {
    if |part| >= 2 && part[..2] == "**" && part[|part| - 2..] == "**" then Bold(SliceInner(part))
    else Plain(part)
  }

  /** The text a child shows, with the asterisks a bold child stands for. */
  function Markup(seg: Segment): string {
    match seg
    case Plain(t) => t
    case Bold(t) => "**" + t + "**"
  }

  /** As written, the part `***` (a common scene break) becomes an empty bold
      child: all three characters vanish from the rendered paragraph. */
  lemma ClassifyAsWrittenDropsStars()
    ensures BoldSplit("***") == ["***"]
    ensures ClassifyAsWritten("***") == Bold("")
    ensures Markup(ClassifyAsWritten("***")) != "***"
  {
    var s := "***";
    assert SpanAt(s, "**").None? by {
      assert s[..2] == "**" && s[2..] == "*";
      assert CloseAt("*", "**").None?;
    }
    assert SpanAt(s[1..], "**").None? by {
      assert s[1..] == "**" && CloseAt("", "**").None?;
    }
    assert SpanAt(s[2..], "**").None? by { assert s[2..] == "*"; }
    assert SpanAt(s[3..], "**").None? by { assert s[3..] == ""; }
    assert s[1..][1..] == s[2..] && s[2..][1..] == s[3..];
    assert FirstSpan(s[3..]).None?;
    assert FirstSpan(s[2..]).None?;
    assert FirstSpan(s[1..]).None?;
    assert FirstSpan(s).None?;
    assert s[..2] == "**" && s[|s| - 2..] == "**";
    assert Markup(Bold("")) == "****";
  }

  /** The evidently intended child: only a part long enough to hold both
      markers becomes bold. */
  function Classify(part: string): (seg: Segment)
    ensures seg.Bold? <==> |part| >= 4 && part[..2] == "**" && part[|part| - 2..] == "**"
    ensures Markup(seg) == part
  {
    if |part| >= 4 && part[..2] == "**" && part[|part| - 2..] == "**" then
      assert part == part[..2] + part[2..|part| - 2] + part[|part| - 2..];
      Bold(part[2..|part| - 2])
    else Plain(part)
  }

  /** The two classifications differ only on the parts `**` and `***`. */
  lemma ClassifyAgrees(part: string)
    ensures ClassifyAsWritten(part) != Classify(part) <==> part == "**" || part == "***"
  {
    if part == "**" || part == "***" {
      assert part[..2] == "**" && part[|part| - 2..] == "**";
    } else if |part| == 2 || |part| == 3 {
      assert part[..2] != "**" || part[|part| - 2..] != "**" by {
        if part[..2] == "**" && part[|part| - 2..] == "**" {
          StarsOnly(part);
        }
      }
    }
  }

  /** A string of two or three characters that starts and ends with `**`
      is `**` or `***`. */
  lemma StarsOnly(part: string)
    requires 2 <= |part| <= 3 && part[..2] == "**" && part[|part| - 2..] == "**"
    ensures part == "**" || part == "***"
  {
    assert part[0] == part[..2][0] && part[1] == part[..2][1];
    assert part[|part| - 1] == part[|part| - 2..][1];
  }

  /** The children of a paragraph: one per part of the bold split. */
  function Children(paragraph: string): (segs: seq<Segment>)
    ensures |segs| == |BoldSplit(paragraph)|
  {
    var parts := BoldSplit(paragraph);
    seq(|parts|, j requires 0 <= j < |parts| => Classify(parts[j]))
  }

  /** Each match of the bold pattern becomes a bold child holding the text
      between its markers. */
  lemma ChildrenBoldMatches(paragraph: string)
    ensures var parts, segs := BoldSplit(paragraph), Children(paragraph);
      forall j :: 0 <= j < |parts| && j % 2 == 1 ==>
        IsBoldMatch(parts[j]) && segs[j] == Bold(parts[j][2..|parts[j]| - 2])
  {
    BoldSplitMatches(paragraph);
  }

  function MarkupAll(segs: seq<Segment>): string {
    if segs == [] then "" else Markup(segs[0]) + MarkupAll(segs[1..])
  }

  lemma {:induction false} MarkupAllConcat(segs: seq<Segment>, parts: seq<string>)
    requires |segs| == |parts| && forall j :: 0 <= j < |parts| ==> Markup(segs[j]) == parts[j]
    ensures MarkupAll(segs) == Concat(parts)
  {
    if segs != [] {
      MarkupAllConcat(segs[1..], parts[1..]);
    }
  }

  /** The children of a paragraph show all of its text: the bold markers are
      exactly the ones the children stand for. */
  lemma ChildrenShowParagraph(paragraph: string)
    ensures MarkupAll(Children(paragraph)) == paragraph
  {
    var parts, segs := BoldSplit(paragraph), Children(paragraph);
    assert forall j :: 0 <= j < |parts| ==> Markup(segs[j]) == parts[j];
    MarkupAllConcat(Children(paragraph), BoldSplit(paragraph));
    ConcatBoldSplit(paragraph);
  }

  /** The children of a paragraph as written: every part classified by
      `ClassifyAsWritten`. */
  function ChildrenAsWritten(paragraph: string): (segs: seq<Segment>)
    ensures |segs| == |BoldSplit(paragraph)|
  {
    var parts := BoldSplit(paragraph);
    seq(|parts|, j requires 0 <= j < |parts| => ClassifyAsWritten(parts[j]))
  }

  /** No part of the split is a bare `**` or `***`. */
  predicate NoBareStars(parts: seq<string>) {
    forall j :: 0 <= j < |parts| ==> parts[j] != "**" && parts[j] != "***"
  }

  /** Classifying parts as written and as intended gives the same children
      exactly when no part is a bare `**` or `***`. */
  lemma ClassifiedAgree(parts: seq<string>, w: seq<Segment>, c: seq<Segment>)
    requires |w| == |parts| && |c| == |parts|
    requires forall j :: 0 <= j < |parts| ==> w[j] == ClassifyAsWritten(parts[j]) && c[j] == Classify(parts[j])
    ensures w == c <==> NoBareStars(parts)
  {
    if NoBareStars(parts) {
      forall j | 0 <= j < |parts| ensures w[j] == c[j] {
        ClassifyAgrees(parts[j]);
      }
    } else {
      var j :| 0 <= j < |parts| && (parts[j] == "**" || parts[j] == "***");
      ClassifyAgrees(parts[j]);
      assert w[j] != c[j];
    }
  }

  /** The children as written are the corrected children exactly when no
      part of the paragraph is a bare `**` or `***`. */
  lemma ChildrenAsWrittenAgrees(paragraph: string)
    ensures ChildrenAsWritten(paragraph) == Children(paragraph) <==> NoBareStars(BoldSplit(paragraph))
  {
    ClassifiedAgree(BoldSplit(paragraph), ChildrenAsWritten(paragraph), Children(paragraph));
  }

  /** As written, a paragraph none of whose parts is a bare `**` or `***`
      shows all of its text. */
  lemma ChildrenAsWrittenShowParagraph(paragraph: string)
    requires NoBareStars(BoldSplit(paragraph))
    ensures MarkupAll(ChildrenAsWritten(paragraph)) == paragraph
  {
    ChildrenAsWrittenAgrees(paragraph);
    ChildrenShowParagraph(paragraph);
  }

  // ---------------------------------------------------------------------
  // Paragraphs.

  /** The paragraphs rendered from the split pieces `pieces`, the first of
      which has split index `offset`: a piece whose `trim()` is empty (a
      blank piece, by `TrimEmptyIffBlank`) gives no element. */
  function RenderPieces(pieces: seq<string>, offset: nat): (ps: seq<Paragraph>)
    ensures |ps| <= |pieces|
    ensures forall i :: 0 <= i < |ps| ==> !Blank(ps[i].text) && ps[i].dropCap == (ps[i].key == 0)
    decreases |pieces|
  {
    if pieces == [] then []
    else
      var rest := RenderPieces(pieces[1..], offset + 1);
      if Blank(pieces[0]) then rest
      else [Paragraph(offset, offset == 0, pieces[0])] + rest
  }

  /** `renderFormattedBody(text)`, with the dropped (null) elements left out. */
  function RenderFormattedBody(text: string): (ps: seq<Paragraph>)
    ensures |ps| <= |Split(text, "\n\n")|
    ensures forall i :: 0 <= i < |ps| ==> !Blank(ps[i].text) && ps[i].dropCap == (ps[i].key == 0)
  {
    RenderPieces(Split(text, "\n\n"), 0)
  }

  /** `p` is the element rendered for the piece of split index `p.key`, given
      that `pieces` starts at split index `offset`. */
  predicate RendersPiece(pieces: seq<string>, offset: nat, p: Paragraph) {
    && offset <= p.key < offset + |pieces|
    && !Blank(pieces[p.key - offset])
    && p.text == pieces[p.key - offset]
    && (p.dropCap <==> p.key == 0)
  }

  /** Each rendered element comes from a non-blank piece, holds that piece's
      text, and has the drop cap exactly at split index 0. */
  lemma {:induction false} RenderPiecesSound(pieces: seq<string>, offset: nat, m: nat)
    requires m < |RenderPieces(pieces, offset)|
    ensures RendersPiece(pieces, offset, RenderPieces(pieces, offset)[m])
    decreases |pieces|
  {
    var ps := RenderPieces(pieces, offset);
    var rest := RenderPieces(pieces[1..], offset + 1);
    if Blank(pieces[0]) {
      RenderPiecesSound(pieces[1..], offset + 1, m);
      assert pieces[1..][ps[m].key - (offset + 1)] == pieces[ps[m].key - offset];
    } else if m > 0 {
      assert ps[m] == rest[m - 1];
      RenderPiecesSound(pieces[1..], offset + 1, m - 1);
      assert pieces[1..][ps[m].key - (offset + 1)] == pieces[ps[m].key - offset];
    }
  }

  /** The elements keep the order of the pieces. */
  lemma {:induction false} RenderPiecesOrdered(pieces: seq<string>, offset: nat, a: nat, b: nat)
    requires a < b < |RenderPieces(pieces, offset)|
    ensures RenderPieces(pieces, offset)[a].key < RenderPieces(pieces, offset)[b].key
    decreases |pieces|
  {
    var ps := RenderPieces(pieces, offset);
    var rest := RenderPieces(pieces[1..], offset + 1);
    if Blank(pieces[0]) {
      RenderPiecesOrdered(pieces[1..], offset + 1, a, b);
    } else if a > 0 {
      assert ps[a] == rest[a - 1] && ps[b] == rest[b - 1];
      RenderPiecesOrdered(pieces[1..], offset + 1, a - 1, b - 1);
    } else {
      assert ps[b] == rest[b - 1];
      RenderPiecesSound(pieces[1..], offset + 1, b - 1);
    }
  }

  /** Every piece that is not blank is rendered. */
  lemma {:induction false} RenderPiecesComplete(pieces: seq<string>, offset: nat, k: nat)
    requires k < |pieces| && !Blank(pieces[k])
    ensures exists m :: 0 <= m < |RenderPieces(pieces, offset)| && RenderPieces(pieces, offset)[m].key == offset + k
    decreases |pieces|
  {
    var ps := RenderPieces(pieces, offset);
    if k == 0 {
      assert ps[0].key == offset;
    } else {
      RenderPiecesComplete(pieces[1..], offset + 1, k - 1);
      var rest := RenderPieces(pieces[1..], offset + 1);
      var m :| 0 <= m < |rest| && rest[m].key == offset + 1 + (k - 1);
      if Blank(pieces[0]) {
        assert ps[m] == rest[m];
      } else {
        assert ps[m + 1] == rest[m];
      }
    }
  }

  /** What the body renders to: one paragraph per non-blank piece of the
      split at "\n\n", in order, each showing all of its piece's text, and
      the drop cap exactly on the paragraph of split index 0. */
  lemma RenderFormattedBodyParagraphs(text: string)
    ensures var pieces, ps := Split(text, "\n\n"), RenderFormattedBody(text);
      && (forall m :: 0 <= m < |ps| ==>
            && ps[m].key < |pieces| && !Blank(pieces[ps[m].key])
            && MarkupAll(Children(ps[m].text)) == pieces[ps[m].key]
            && (ps[m].dropCap <==> ps[m].key == 0))
      && (forall k :: 0 <= k < |pieces| && !Blank(pieces[k]) ==>
            exists m :: 0 <= m < |ps| && ps[m].key == k)
      && (forall a, b :: 0 <= a < b < |ps| ==> ps[a].key < ps[b].key)
  {
    var pieces, ps := Split(text, "\n\n"), RenderFormattedBody(text);
    forall m | 0 <= m < |ps|
      ensures && ps[m].key < |pieces| && !Blank(pieces[ps[m].key])
              && MarkupAll(Children(ps[m].text)) == pieces[ps[m].key]
              && (ps[m].dropCap <==> ps[m].key == 0)
    {
      RenderPiecesSound(pieces, 0, m);
      ChildrenShowParagraph(pieces[ps[m].key]);
    }
    forall k | 0 <= k < |pieces| && !Blank(pieces[k])
      ensures exists m :: 0 <= m < |ps| && ps[m].key == k
    {
      RenderPiecesComplete(pieces, 0, k);
    }
    forall a, b | 0 <= a < b < |ps| ensures ps[a].key < ps[b].key {
      RenderPiecesOrdered(pieces, 0, a, b);
    }
  }

  /** The drop cap appears at all only when the first piece is not blank: a
      body that opens with a blank line has no drop cap. */
  lemma DropCapIffFirstPieceVisible(text: string)
    ensures var ps := RenderFormattedBody(text);
      (exists m :: 0 <= m < |ps| && ps[m].dropCap) <==> !Blank(Split(text, "\n\n")[0])
  {
    var pieces, ps := Split(text, "\n\n"), RenderFormattedBody(text);
    if !Blank(pieces[0]) {
      RenderPiecesComplete(pieces, 0, 0);
      var m :| 0 <= m < |ps| && ps[m].key == 0;
      RenderPiecesSound(pieces, 0, m);
    }
    forall m | 0 <= m < |ps| && ps[m].dropCap ensures !Blank(pieces[0]) {
      RenderPiecesSound(pieces, 0, m);
    }
  }
}
