// `cleanMarkdown` of components/OutputSection.tsx: two global regular-expression
// replacements, first of a double-asterisk span and then of a single-asterisk
// span (the patterns \*\*(.*?)\*\* and \*(.*?)\*, flag g), each keeping only
// the text between the markers. Each replacement is modelled as the
// left-to-right scan a global replace performs: at every position try a match,
// replace it and continue after it, or copy one character and move on. The
// lazy `.*?` takes the first closing marker, and `.` never crosses a line
// terminator.
module Markdown {
  import opened JsText
  import opened Seqs

  /** True when no character of `s` is a line terminator. */
  predicate OnOneLine(s: string) {
    forall i :: 0 <= i < |s| ==> !IsLineTerminator(s[i])
  }

  /** True when every character of `d` is an asterisk. */
  predicate AllStars(d: string) {
    forall i :: 0 <= i < |d| ==> d[i] == '*'
  }

  /** The lazy search for the closing marker `d` in `t`: the length of the
      shortest line-terminator-free prefix of `t` that is followed by `d`. */
  function CloseAt(t: string, d: string): (r: Option<nat>)
    requires |d| > 0
    ensures r.Some? ==> r.value + |d| <= |t|
    decreases |t|
  {
    if |t| < |d| then None
    else if t[..|d|] == d then Some(0)
    else if IsLineTerminator(t[0]) then None
    else
      match CloseAt(t[1..], d)
      case None => None
      case Some(k) => Some(k + 1)
  }

  /** What the search finds is the first occurrence of `d`, and no line
      terminator comes before it. */
  lemma {:induction false} CloseAtFound(t: string, d: string)
    requires |d| > 0 && CloseAt(t, d).Some?
    ensures var k := CloseAt(t, d).value;
      && OccursAt(t, d, k) && OnOneLine(t[..k])
      && forall i: nat :: i < k ==> !OccursAt(t, d, i)
    decreases |t|
  {
    if t[..|d|] != d {
      var k := CloseAt(t[1..], d).value;
      CloseAtFound(t[1..], d);
      assert t[..k + 1] == [t[0]] + t[1..][..k];
      assert OccursAt(t, d, k + 1) by { OccursShift(t, d, k + 1); }
      forall i: nat | i < k + 1 ensures !OccursAt(t, d, i) {
        if i > 0 {
          OccursShift(t, d, i);
        }
      }
    }
  }

  /** When the search fails, every occurrence of `d` has a line terminator
      before it. */
  lemma {:induction false} CloseAtMissing(t: string, d: string)
    requires |d| > 0 && CloseAt(t, d).None?
    ensures forall i: nat :: OccursAt(t, d, i) ==> !OnOneLine(t[..i])
    decreases |t|
  {
    if |t| >= |d| && t[..|d|] != d {
      forall i: nat | OccursAt(t, d, i) ensures !OnOneLine(t[..i]) {
        assert i > 0;
        assert t[..i][0] == t[0];
        if !IsLineTerminator(t[0]) {
          CloseAtMissing(t[1..], d);
          OccursShift(t, d, i);
          assert t[..i] == [t[0]] + t[1..][..i - 1];
        }
      }
    }
  }

  /** The length of the match of `d(.*?)d` at the very start of `s`, if the
      regular expression matches there. */
  function SpanAt(s: string, d: string): (r: Option<nat>)
    requires |d| > 0
    ensures r.Some? ==> 2 * |d| <= r.value <= |s|
    ensures r.Some? ==> s[..|d|] == d && s[r.value - |d|..r.value] == d
    ensures r.Some? ==> OnOneLine(s[|d|..r.value - |d|])
  {
    if |d| <= |s| && s[..|d|] == d then
      match CloseAt(s[|d|..], d)
      case None => None
      case Some(k) =>
        CloseAtFound(s[|d|..], d);
        assert s[|d|..][..k] == s[|d|..|d| + k];
        assert s[|d|..][k..k + |d|] == s[|d| + k..|d| + k + |d|];
        Some(|d| + k + |d|)
    else None
  }

  /** One global replacement of `d(.*?)d` by the text between the markers. */
  function Unwrap(s: string, d: string): (r: string)
    requires |d| > 0
    ensures |r| <= |s|
    decreases |s|
  {
    if s == [] then []
    else match SpanAt(s, d)
      case Some(n) => s[|d|..n - |d|] + Unwrap(s[n..], d)
      case None => [s[0]] + Unwrap(s[1..], d)
  }

  /** `cleanMarkdown(text)`. */
  function CleanMarkdown(text: string): (r: string)
    ensures |r| <= |text|
  {
    Unwrap(Unwrap(text, "**"), "*")
  }

  // ---------------------------------------------------------------------
  // What the replacements delete.

  /** `r` is `s` with some asterisks deleted and nothing else changed. */
  predicate StarsDeleted(s: string, r: string)
    decreases |s|
  {
    if s == [] then r == []
    else
      || (s[0] == '*' && StarsDeleted(s[1..], r))
      || (r != [] && r[0] == s[0] && StarsDeleted(s[1..], r[1..]))
  }

  lemma {:induction false} StarsDeletedRefl(s: string)
    ensures StarsDeleted(s, s)
    decreases |s|
  {
    if s != [] {
      StarsDeletedRefl(s[1..]);
    }
  }

  lemma {:induction false} StarsDeletedTrans(a: string, b: string, c: string)
    requires StarsDeleted(a, b) && StarsDeleted(b, c)
    ensures StarsDeleted(a, c)
    decreases |a|
  {
    if a != [] {
      if a[0] == '*' && StarsDeleted(a[1..], b) {
        StarsDeletedTrans(a[1..], b, c);
      } else {
        assert b != [] && b[0] == a[0] && StarsDeleted(a[1..], b[1..]);
        if b[0] == '*' && StarsDeleted(b[1..], c) {
          StarsDeletedTrans(a[1..], b[1..], c);
        } else {
          StarsDeletedTrans(a[1..], b[1..], c[1..]);
        }
      }
    }
  }

  /** Deleting a run of asterisks in front keeps the relation. */
  lemma {:induction false} StarsDeletedDropStars(p: string, x: string, y: string)
    requires AllStars(p) && StarsDeleted(x, y)
    ensures StarsDeleted(p + x, y)
    decreases |p|
  {
    if p != [] {
      assert (p + x)[1..] == p[1..] + x;
      StarsDeletedDropStars(p[1..], x, y);
    } else {
      assert p + x == x;
    }
  }

  /** A common prefix keeps the relation. */
  lemma {:induction false} StarsDeletedKeepPrefix(p: string, x: string, y: string)
    requires StarsDeleted(x, y)
    ensures StarsDeleted(p + x, p + y)
    decreases |p|
  {
    if p != [] {
      assert (p + x)[1..] == p[1..] + x;
      assert (p + y)[1..] == p[1..] + y;
      StarsDeletedKeepPrefix(p[1..], x, y);
    } else {
      assert p + x == x && p + y == y;
    }
  }

  /** Unwrapping one marked span deletes its two markers. */
  lemma StarsDeletedSpan(d: string, inner: string, rest: string, r: string)
    requires AllStars(d) && StarsDeleted(rest, r)
    ensures StarsDeleted(d + inner + d + rest, inner + r)
  {
    StarsDeletedDropStars(d, rest, r);
    StarsDeletedKeepPrefix(inner, d + rest, r);
    StarsDeletedDropStars(d, inner + (d + rest), inner + r);
    assert d + inner + d + rest == d + (inner + (d + rest));
  }

  /** Replacing asterisk-marked spans deletes exactly the markers. */
  lemma {:induction false} UnwrapDeletesStars(s: string, d: string)
    requires |d| > 0 && AllStars(d)
    ensures StarsDeleted(s, Unwrap(s, d))
    decreases |s|
  {
    if s != [] {
      match SpanAt(s, d)
      case Some(n) =>
        UnwrapDeletesStars(s[n..], d);
        UnwrapSpanDeletesStars(s, d, n);
      case None =>
        UnwrapDeletesStars(s[1..], d);
        UnwrapCopyDeletesStars(s, d);
    }
  }

  lemma UnwrapSpanDeletesStars(s: string, d: string, n: nat)
    requires |d| > 0 && AllStars(d) && s != [] && SpanAt(s, d) == Some(n)
    requires StarsDeleted(s[n..], Unwrap(s[n..], d))
    ensures StarsDeleted(s, Unwrap(s, d))
  {
    var inner, rest := s[|d|..n - |d|], s[n..];
    assert s == d + inner + d + rest by {
      Joined4(s, |d|, n - |d|, n);
    }
    assert Unwrap(s, d) == inner + Unwrap(rest, d) by {
      UnwrapSpan(s, d, n);
    }
    StarsDeletedSpan(d, inner, rest, Unwrap(rest, d));
  }

  lemma UnwrapCopyDeletesStars(s: string, d: string)
    requires |d| > 0 && s != [] && SpanAt(s, d).None?
    requires StarsDeleted(s[1..], Unwrap(s[1..], d))
    ensures StarsDeleted(s, Unwrap(s, d))
  {
    UnwrapCopy(s, d);
    StarsDeletedKeepPrefix([s[0]], s[1..], Unwrap(s[1..], d));
    assert s == [s[0]] + s[1..];
  }

  /** `cleanMarkdown` returns its input with some asterisks deleted and
      every other character kept, in order. */
  lemma CleanMarkdownDeletesStars(text: string)
    ensures StarsDeleted(text, CleanMarkdown(text))
  {
    var once := Unwrap(text, "**");
    UnwrapDeletesStars(text, "**");
    UnwrapDeletesStars(once, "*");
    StarsDeletedTrans(text, once, CleanMarkdown(text));
  }

  /** Text without asterisks passes through a replacement unchanged. */
  lemma {:induction false} UnwrapNoStars(s: string, d: string)
    requires |d| > 0 && d[0] == '*'
    requires forall i :: 0 <= i < |s| ==> s[i] != '*'
    ensures Unwrap(s, d) == s
    decreases |s|
  {
    if s != [] {
      assert !(|d| <= |s| && s[..|d|] == d) by {
        if |d| <= |s| {
          assert s[..|d|][0] == s[0];
        }
      }
      UnwrapNoStars(s[1..], d);
      assert s == [s[0]] + s[1..];
    }
  }

  /** `cleanMarkdown` leaves text without asterisks unchanged. */
  lemma CleanMarkdownNoStars(text: string)
    requires forall i :: 0 <= i < |text| ==> text[i] != '*'
    ensures CleanMarkdown(text) == text
  {
    UnwrapNoStars(text, "**");
    UnwrapNoStars(text, "*");
  }

  /** After text without asterisks and line terminators, the lazy search
      finds the marker that follows it. */
  lemma {:induction false} CloseAtAfterPlain(u: string, d: string)
    requires |d| > 0 && AllStars(d)
    requires forall i :: 0 <= i < |u| ==> u[i] != '*' && !IsLineTerminator(u[i])
    ensures CloseAt(u + d, d) == Some(|u|)
    decreases |u|
  {
    var w := u + d;
    if u == [] {
      assert w[..|d|] == d;
    } else {
      assert w[..|d|] != d by {
        assert w[..|d|][0] == u[0] && d[0] == '*';
      }
      assert w[0] == u[0] && w[1..] == u[1..] + d;
      CloseAtAfterPlain(u[1..], d);
    }
  }

  /** The double-asterisk replacement strips the markers of a bold span. */
  lemma UnwrapBoldExample()
    ensures Unwrap("**bold**", "**") == "bold"
  {
    var b, text := "**bold**", "bold";
    assert b[..2] == "**" && b[2..] == text + "**";
    CloseAtAfterPlain(text, "**");
    assert SpanAt(b, "**") == Some(8);
    UnwrapSpan(b, "**", 8);
    assert b[2..6] == text && b[8..] == [];
  }

  /** Stripping a bold span keeps its text. */
  lemma CleanMarkdownBoldExample()
    ensures CleanMarkdown("**bold**") == "bold"
  {
    UnwrapBoldExample();
    UnwrapNoStars("bold", "*");
  }

  /** Stripping an emphasis span keeps its text. */
  lemma CleanMarkdownEmExample()
    ensures CleanMarkdown("*em*") == "em"
  {
    var e := "*em*";
    assert e[1..] == "em*" && e[2..] == "m*" && e[3..] == "*" && e[4..] == [];
    assert e[..2] == "*e" && e[1..][..2] == "em" && e[2..][..2] == "m*";
    assert SpanAt(e, "**") == None;
    assert SpanAt(e[1..], "**") == None;
    assert SpanAt(e[2..], "**") == None;
    assert SpanAt(e[3..], "**") == None;
    assert Unwrap(e[3..], "**") == e[3..];
    assert Unwrap(e[2..], "**") == e[2..];
    assert Unwrap(e[1..], "**") == e[1..];
    assert Unwrap(e, "**") == e;
    assert CloseAt("*", "*") == Some(0);
    assert "m*"[1..] == "*";
    assert CloseAt("m*", "*") == Some(1);
    assert CloseAt("em*", "*") == Some(2);
    assert SpanAt(e, "*") == Some(4);
    assert e[1..3] == "em";
    assert Unwrap(e, "*") == "em";
  }

  // ---------------------------------------------------------------------
  // No span crosses a line terminator.

  lemma {:induction false} CloseAtStopsAtLine(u: string, t: char, b: string, d: string)
    requires |d| > 0 && AllStars(d) && IsLineTerminator(t)
    ensures CloseAt(u + [t] + b, d) == CloseAt(u, d)
    decreases |u|
  {
    var w := u + [t] + b;
    if |u| < |d| {
      assert w[|u|] == t && d[|u|] == '*';
      if u != [] && !IsLineTerminator(u[0]) {
        assert w[1..] == u[1..] + [t] + b;
        CloseAtStopsAtLine(u[1..], t, b, d);
      }
    } else {
      assert w[..|d|] == u[..|d|];
      if u[..|d|] != d && !IsLineTerminator(u[0]) {
        assert w[1..] == u[1..] + [t] + b;
        CloseAtStopsAtLine(u[1..], t, b, d);
      }
    }
  }

  lemma SpanAtStopsAtLine(a: string, t: char, b: string, d: string)
    requires |d| > 0 && AllStars(d) && IsLineTerminator(t)
    ensures SpanAt(a + [t] + b, d) == SpanAt(a, d)
  {
    var w := a + [t] + b;
    if |d| <= |a| {
      assert w[..|d|] == a[..|d|];
      if a[..|d|] == d {
        assert w[|d|..] == a[|d|..] + [t] + b;
        CloseAtStopsAtLine(a[|d|..], t, b, d);
      }
    } else {
      assert w[|a|] == t && d[|a|] == '*';
    }
  }

  /** One step of the scan where a span matches. */
  lemma UnwrapSpan(s: string, d: string, n: nat)
    requires |d| > 0 && s != [] && SpanAt(s, d) == Some(n)
    ensures Unwrap(s, d) == s[|d|..n - |d|] + Unwrap(s[n..], d)
  {
  }

  /** One step of the scan where no span matches. */
  lemma UnwrapCopy(s: string, d: string)
    requires |d| > 0 && s != [] && SpanAt(s, d).None?
    ensures Unwrap(s, d) == [s[0]] + Unwrap(s[1..], d)
  {
  }

  lemma SlicesBeforeLine<T>(a: seq<T>, t: T, b: seq<T>, i: nat, j: nat)
    requires i <= j <= |a|
    ensures (a + [t] + b)[i..j] == a[i..j] && (a + [t] + b)[j..] == a[j..] + [t] + b
  {
  }

  lemma RegroupLine(x: string, y: string, t: char, z: string)
    ensures x + (y + [t] + z) == x + y + [t] + z
  {
  }

  /** A span at the start of `a` is also the first span of `a`, a line
      terminator and more text. */
  lemma UnwrapSpanLine(a: string, t: char, b: string, d: string, n: nat)
    requires |d| > 0 && AllStars(d) && IsLineTerminator(t)
    requires a != [] && SpanAt(a, d) == Some(n)
    ensures Unwrap(a + [t] + b, d) == a[|d|..n - |d|] + Unwrap(a[n..] + [t] + b, d)
  {
    var w, inner, rest := a + [t] + b, a[|d|..n - |d|], a[n..] + [t] + b;
    SpanAtStopsAtLine(a, t, b, d);
    SlicesBeforeLine(a, t, b, |d|, n - |d|);
    SlicesBeforeLine(a, t, b, n, n);
    UnwrapSpanParts(w, d, n, inner, rest);
  }

  /** One step of the scan where a span matches, with the span's inner text
      and the rest named. */
  lemma UnwrapSpanParts(w: string, d: string, n: nat, inner: string, rest: string)
    requires |d| > 0 && w != [] && SpanAt(w, d) == Some(n)
    requires w[|d|..n - |d|] == inner && w[n..] == rest
    ensures Unwrap(w, d) == inner + Unwrap(rest, d)
  {
    UnwrapSpan(w, d, n);
  }

  /** Without a span at the start of `a`, the first character of `a` is
      copied from `a`, a line terminator and more text. */
  lemma UnwrapCopyLine(a: string, t: char, b: string, d: string)
    requires |d| > 0 && AllStars(d) && IsLineTerminator(t)
    requires a != [] && SpanAt(a, d).None?
    ensures Unwrap(a + [t] + b, d) == [a[0]] + Unwrap(a[1..] + [t] + b, d)
  {
    var w := a + [t] + b;
    SpanAtStopsAtLine(a, t, b, d);
    UnwrapCopy(w, d);
    assert w[0] == a[0] && w[1..] == a[1..] + [t] + b;
  }

  /** A replacement works line by line: no match spans a line terminator. */
  lemma {:induction false} UnwrapLineLocal(a: string, t: char, b: string, d: string)
    requires |d| > 0 && AllStars(d) && IsLineTerminator(t)
    ensures Unwrap(a + [t] + b, d) == Unwrap(a, d) + [t] + Unwrap(b, d)
    decreases |a|
  {
    if a == [] {
      var w := a + [t] + b;
      assert w == [t] + b && w[1..] == b;
      assert SpanAt(w, d).None? by {
        if |d| <= |w| {
          assert w[..|d|][0] == t;
        }
      }
      UnwrapCopy(w, d);
    } else {
      match SpanAt(a, d)
      case Some(n) =>
        UnwrapLineLocal(a[n..], t, b, d);
        UnwrapSpanLine(a, t, b, d, n);
        UnwrapSpan(a, d, n);
        RegroupLine(a[|d|..n - |d|], Unwrap(a[n..], d), t, Unwrap(b, d));
      case None =>
        UnwrapLineLocal(a[1..], t, b, d);
        UnwrapCopyLine(a, t, b, d);
        UnwrapCopy(a, d);
        RegroupLine([a[0]], Unwrap(a[1..], d), t, Unwrap(b, d));
    }
  }

  /** `cleanMarkdown` works line by line: cleaning text made of two parts
      joined by a line terminator cleans each part on its own. */
  lemma CleanMarkdownLineLocal(a: string, t: char, b: string)
    requires IsLineTerminator(t)
    ensures CleanMarkdown(a + [t] + b) == CleanMarkdown(a) + [t] + CleanMarkdown(b)
  {
    UnwrapLineLocal(a, t, b, "**");
    UnwrapLineLocal(Unwrap(a, "**"), t, Unwrap(b, "**"), "*");
  }

  // ---------------------------------------------------------------------
  // Idempotence: after the second replacement no line holds two asterisks.

  /** No asterisk of `s` has a partner later on its own line. */
  predicate Unpaired(s: string)
    decreases |s|
  {
    s == [] || ((s[0] == '*' ==> CloseAt(s[1..], "*").None?) && Unpaired(s[1..]))
  }

  lemma {:induction false} UnpairedAfterPlain(c: string, x: string)
    requires forall i :: 0 <= i < |c| ==> c[i] != '*'
    requires Unpaired(x)
    ensures Unpaired(c + x)
    decreases |c|
  {
    if c != [] {
      assert (c + x)[1..] == c[1..] + x;
      UnpairedAfterPlain(c[1..], x);
    } else {
      assert c + x == x;
    }
  }

  /** Text that has no asterisk before its first line terminator keeps that
      property through the single-asterisk replacement. */
  lemma {:induction false} UnwrapKeepsLoneStar(u: string)
    requires CloseAt(u, "*").None?
    ensures CloseAt(Unwrap(u, "*"), "*").None?
    decreases |u|
  {
    if u != [] {
      assert u[..1] == [u[0]];
      assert SpanAt(u, "*").None?;
      var x := Unwrap(u[1..], "*");
      assert Unwrap(u, "*") == [u[0]] + x;
      assert ([u[0]] + x)[..1] == [u[0]];
      assert ([u[0]] + x)[1..] == x;
      if !IsLineTerminator(u[0]) {
        UnwrapKeepsLoneStar(u[1..]);
      }
    }
  }

  /** The single-asterisk replacement leaves no two asterisks on one line. */
  lemma {:induction false} UnwrapStarUnpaired(t: string)
    ensures Unpaired(Unwrap(t, "*"))
    decreases |t|
  {
    if t != [] {
      match SpanAt(t, "*")
      case Some(n) =>
        var k := CloseAt(t[1..], "*").value;
        CloseAtFound(t[1..], "*");
        assert n == k + 2;
        var inner := t[1..n - 1];
        forall i | 0 <= i < |inner| ensures inner[i] != '*' {
          assert !OccursAt(t[1..], "*", i);
          assert t[1..][i..i + 1] == [inner[i]];
        }
        UnwrapStarUnpaired(t[n..]);
        UnpairedAfterPlain(inner, Unwrap(t[n..], "*"));
      case None =>
        var x := Unwrap(t[1..], "*");
        UnwrapStarUnpaired(t[1..]);
        assert ([t[0]] + x)[1..] == x;
        if t[0] == '*' {
          assert t[..1] == "*";
          UnwrapKeepsLoneStar(t[1..]);
        }
    }
  }

  /** A double asterisk is an asterisk closed at once by the next one. */
  lemma DoubleStarCloses(s: string)
    ensures |s| >= 2 && s[..2] == "**" ==> s[0] == '*' && CloseAt(s[1..], "*") == Some(0)
  {
    if |s| >= 2 && s[..2] == "**" {
      assert s[..2][0] == s[0];
      assert s[1..][..1] == "*";
    }
  }

  /** No span starts where no asterisk has a partner on its line. */
  lemma UnpairedNoSpan(s: string, d: string)
    requires d == "*" || d == "**"
    requires s != [] && Unpaired(s)
    ensures SpanAt(s, d).None?
  {
    if d == "**" {
      DoubleStarCloses(s);
    } else {
      assert s[..1] == "*" ==> s[0] == '*';
    }
  }

  /** Text with no two asterisks on one line is left alone by both
      replacements. */
  lemma {:induction false} UnpairedFixed(s: string, d: string)
    requires d == "*" || d == "**"
    requires Unpaired(s)
    ensures Unwrap(s, d) == s
    decreases |s|
  {
    if s != [] {
      UnpairedNoSpan(s, d);
      UnpairedFixed(s[1..], d);
      UnwrapCopy(s, d);
      assert s == [s[0]] + s[1..];
    }
  }

  /** `cleanMarkdown` is idempotent. */
  lemma CleanMarkdownIdempotent(text: string)
    ensures CleanMarkdown(CleanMarkdown(text)) == CleanMarkdown(text)
  {
    var c := CleanMarkdown(text);
    UnwrapStarUnpaired(Unwrap(text, "**"));
    UnpairedFixed(c, "**");
    UnpairedFixed(c, "*");
  }

  lemma {:induction false} UnpairedAt(s: string, i: nat)
    requires Unpaired(s) && i < |s| && s[i] == '*'
    ensures CloseAt(s[i + 1..], "*").None?
    decreases i
  {
    if i > 0 {
      assert s[1..][i - 1] == s[i];
      assert s[1..][i..] == s[i + 1..];
      UnpairedAt(s[1..], i - 1);
    }
  }

  /** In the output of `cleanMarkdown`, between any two asterisks there is a
      line terminator; in particular no double asterisk survives. */
  lemma CleanMarkdownStarsOnSeparateLines(text: string)
    ensures var c := CleanMarkdown(text);
      forall i, j :: 0 <= i < j < |c| && c[i] == '*' && c[j] == '*' ==> !OnOneLine(c[i + 1..j])
  {
    var c := CleanMarkdown(text);
    UnwrapStarUnpaired(Unwrap(text, "**"));
    forall i, j | 0 <= i < j < |c| && c[i] == '*' && c[j] == '*' ensures !OnOneLine(c[i + 1..j]) {
      UnpairedAt(c, i);
      NoCloseApart(c, i, j);
    }
  }

  /** An asterisk with no closing asterisk on its line has a line terminator
      before every later asterisk. */
  lemma NoCloseApart(c: string, i: nat, j: nat)
    requires i < j < |c| && c[j] == '*' && CloseAt(c[i + 1..], "*").None?
    ensures !OnOneLine(c[i + 1..j])
  {
    var t := c[i + 1..];
    CloseAtMissing(t, "*");
    assert t[j - i - 1..j - i] == "*";
    assert OccursAt(t, "*", j - i - 1);
    assert t[..j - i - 1] == c[i + 1..j];
  }
}
