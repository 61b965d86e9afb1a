/** The few pieces of JavaScript's string semantics that the editorial
    front end relies on: the character classes of the regular-expression
    dot and of `String.prototype.trim`, `trim` itself, and `split`/`join`
    with a literal separator. */
module JsText {
  import opened Seqs

  datatype Option<T> = None | Some(value: T)

  /** A character that the regular-expression `.` does not match:
      LF, CR, LINE SEPARATOR and PARAGRAPH SEPARATOR. */
  predicate IsLineTerminator(c: char) {
    c == '\n' || c == '\r' || c == '\U{2028}' || c == '\U{2029}'
  }

  /** The characters `trim` removes: the WhiteSpace code points (TAB, VT,
      FF, ZWNBSP and every space separator) and the line terminators. */
  predicate IsJsWhitespace(c: char) {
    || c == '\t' || c == '\U{000B}' || c == '\U{000C}' || c == ' '
    || c == '\U{00A0}' || c == '\U{FEFF}' || c == '\U{1680}'
    || ('\U{2000}' <= c <= '\U{200A}')
    || c == '\U{202F}' || c == '\U{205F}' || c == '\U{3000}'
    || IsLineTerminator(c)
  }

  /** True when `trim` turns `s` into the empty string. */
  predicate Blank(s: string) {
    forall i :: 0 <= i < |s| ==> IsJsWhitespace(s[i])
  }

  /** `s.trimStart()`. */
  function TrimStart(s: string): (r: string)
    ensures |r| <= |s|
    ensures r == [] || !IsJsWhitespace(r[0])
    decreases |s|
  {
    if s != [] && IsJsWhitespace(s[0]) then TrimStart(s[1..]) else s
  }

  /** `s.trimEnd()`. */
  function TrimEnd(s: string): (r: string)
    ensures |r| <= |s| && r == s[..|r|]
    ensures r == [] || !IsJsWhitespace(r[|r| - 1])
    decreases |s|
  {
    if s != [] && IsJsWhitespace(s[|s| - 1]) then TrimEnd(s[..|s| - 1]) else s
  }

  /** `trimStart` keeps a suffix of its input. */
  lemma {:induction false} TrimStartSuffix(s: string)
    ensures TrimStart(s) == s[|s| - |TrimStart(s)|..]
    decreases |s|
  {
    if s != [] && IsJsWhitespace(s[0]) {
      TrimStartSuffix(s[1..]);
      assert s[1..][|s| - 1 - |TrimStart(s)|..] == s[|s| - |TrimStart(s)|..];
    }
  }

  /** What `trimStart` removes is whitespace. */
  lemma {:induction false} TrimStartDropsBlank(s: string)
    ensures Blank(s[..|s| - |TrimStart(s)|])
    decreases |s|
  {
    if s != [] && IsJsWhitespace(s[0]) {
      TrimStartDropsBlank(s[1..]);
      var k := |s| - |TrimStart(s)|;
      assert s[..k] == [s[0]] + s[1..][..k - 1];
    }
  }

  /** What `trimEnd` removes is whitespace. */
  lemma {:induction false} TrimEndDropsBlank(s: string)
    ensures Blank(s[|TrimEnd(s)|..])
    decreases |s|
  {
    if s != [] && IsJsWhitespace(s[|s| - 1]) {
      var p := s[..|s| - 1];
      TrimEndDropsBlank(p);
      var k := |TrimEnd(s)|;
      assert s[k..] == p[k..] + [s[|s| - 1]];
    }
  }

  /** `s.trim()`. */
  function Trim(s: string): (r: string)
    ensures |r| <= |s|
    ensures r == [] || (!IsJsWhitespace(r[0]) && !IsJsWhitespace(r[|r| - 1]))
  {
    TrimStartSuffix(TrimEnd(s));
    TrimStart(TrimEnd(s))
  }

  lemma BlankAppend(x: string, y: string)
    requires Blank(x) && Blank(y)
    ensures Blank(x + y)
  {
    forall i | 0 <= i < |x + y| ensures IsJsWhitespace((x + y)[i]) {
      if i >= |x| {
        assert (x + y)[i] == y[i - |x|];
      }
    }
  }

  /** `trim` yields the empty string exactly on blank input. */
  lemma TrimEmptyIffBlank(s: string)
    ensures Trim(s) == [] <==> Blank(s)
  {
    var e := TrimEnd(s);
    if Trim(s) == [] {
      TrimStartDropsBlank(e);
      TrimEndDropsBlank(s);
      assert e[..|e|] == e;
      assert s == e + s[|e|..];
      BlankAppend(e, s[|e|..]);
    }
    if e != [] {
      assert e[|e| - 1] == s[|e| - 1];
    }
  }

  /** Trimming the end of `x + y` when `y` holds a visible character only
      touches `y`. */
  lemma {:induction false} TrimEndAppend(x: string, y: string)
    requires !Blank(y)
    ensures TrimEnd(x + y) == x + TrimEnd(y)
    decreases |y|
  {
    assert y != [];
    if IsJsWhitespace(y[|y| - 1]) {
      var y' := y[..|y| - 1];
      assert (x + y)[..|x + y| - 1] == x + y';
      assert !Blank(y') by {
        var i :| 0 <= i < |y| && !IsJsWhitespace(y[i]);
        assert i < |y| - 1 && y'[i] == y[i];
      }
      TrimEndAppend(x, y');
    }
  }

  /** Trimming the end of `x + y` when `y` is blank is trimming `x`. */
  lemma {:induction false} TrimEndBlankSuffix(x: string, y: string)
    requires Blank(y)
    ensures TrimEnd(x + y) == TrimEnd(x)
    decreases |y|
  {
    if y != [] {
      var y' := y[..|y| - 1];
      assert (x + y)[..|x + y| - 1] == x + y';
      assert (x + y)[|x + y| - 1] == y[|y| - 1];
      TrimEndBlankSuffix(x, y');
    } else {
      assert x + y == x;
    }
  }

  /** Trimming the start of `x + y` when `x` holds a visible character only
      touches `x`. */
  lemma {:induction false} TrimStartAppend(x: string, y: string)
    requires !Blank(x)
    ensures TrimStart(x + y) == TrimStart(x) + y
    decreases |x|
  {
    assert x != [];
    if IsJsWhitespace(x[0]) {
      assert (x + y)[1..] == x[1..] + y;
      assert !Blank(x[1..]) by {
        var i :| 0 <= i < |x| && !IsJsWhitespace(x[i]);
        assert 0 < i && x[1..][i - 1] == x[i];
      }
      TrimStartAppend(x[1..], y);
    }
  }

  /** True when `sep` occurs in `s` starting at index `i`. */
  predicate OccursAt(s: string, sep: string, i: nat) {
    i + |sep| <= |s| && s[i..i + |sep|] == sep
  }

  /** An occurrence past the first character of `s` is an occurrence in `s[1..]`. */
  lemma OccursShift(s: string, sep: string, i: nat)
    requires 0 < i && s != []
    ensures OccursAt(s, sep, i) <==> OccursAt(s[1..], sep, i - 1)
  {
    if i + |sep| <= |s| {
      assert s[i..i + |sep|] == s[1..][i - 1..i - 1 + |sep|];
    }
  }

  /** `s.indexOf(sep)`: the first index at which `sep` occurs, if any. */
  function IndexOf(s: string, sep: string): (r: Option<nat>)
    requires |sep| > 0
    ensures r.Some? ==> r.value + |sep| <= |s|
    decreases |s|
  {
    if |s| < |sep| then None
    else if s[..|sep|] == sep then Some(0)
    else
      match IndexOf(s[1..], sep)
      case None => None
      case Some(k) => Some(k + 1)
  }

  /** The index found is an occurrence, and no occurrence comes before it;
      when none is found, `sep` occurs nowhere. */
  lemma {:induction false} IndexOfFirst(s: string, sep: string)
    requires |sep| > 0
    ensures var r := IndexOf(s, sep);
      && (r.Some? ==> OccursAt(s, sep, r.value))
      && forall i: nat :: i < (if r.Some? then r.value else |s| + 1) ==> !OccursAt(s, sep, i)
    decreases |s|
  {
    if |s| >= |sep| && s[..|sep|] != sep {
      var r, r' := IndexOf(s, sep), IndexOf(s[1..], sep);
      IndexOfFirst(s[1..], sep);
      if r'.Some? {
        OccursShift(s, sep, r'.value + 1);
      }
      forall i: nat | 0 < i < (if r.Some? then r.value else |s| + 1) ensures !OccursAt(s, sep, i) {
        OccursShift(s, sep, i);
      }
    }
  }

  /** `s.split(sep)` for a non-empty literal separator: the pieces between
      the non-overlapping occurrences of `sep`, found left to right. */
  function Split(s: string, sep: string): (parts: seq<string>)
    requires |sep| > 0
    ensures |parts| >= 1
    decreases |s|
  {
    match IndexOf(s, sep)
    case None => [s]
    case Some(i) => [s[..i]] + Split(s[i + |sep|..], sep)
  }

  /** `parts.join(sep)`. */
  function Join(parts: seq<string>, sep: string): string
    decreases |parts|
  {
    if parts == [] then ""
    else if |parts| == 1 then parts[0]
    else parts[0] + sep + Join(parts[1..], sep)
  }

  /** Joining the pieces of a split with the same separator gives back the
      original string. */
  lemma {:induction false} SplitJoin(s: string, sep: string)
    requires |sep| > 0
    ensures Join(Split(s, sep), sep) == s
    decreases |s|
  {
    match IndexOf(s, sep)
    case None =>
    case Some(i) =>
      SplitJoin(s[i + |sep|..], sep);
      SplitJoinStep(s, sep, i);
  }

  lemma SplitJoinStep(s: string, sep: string, i: nat)
    requires |sep| > 0 && IndexOf(s, sep) == Some(i)
    requires Join(Split(s[i + |sep|..], sep), sep) == s[i + |sep|..]
    ensures Join(Split(s, sep), sep) == s
  {
    var rest := s[i + |sep|..];
    var tail := Split(rest, sep);
    var parts := [s[..i]] + tail;
    assert Split(s, sep) == parts;
    assert Join(parts, sep) == s[..i] + sep + rest by {
      assert parts[1..] == tail;
    }
    assert s == s[..i] + sep + rest by {
      IndexOfFirst(s, sep);
      Joined3(s, i, i + |sep|);
    }
  }

  /** No string of `parts` contains `sep`. */
  ghost predicate PiecesFree(parts: seq<string>, sep: string) {
    forall k: nat, j: nat :: k < |parts| ==> !OccursAt(parts[k], sep, j)
  }

  /** The text before the first occurrence holds no occurrence. */
  lemma PrefixFree(s: string, sep: string, i: nat)
    requires |sep| > 0 && IndexOf(s, sep) == Some(i)
    ensures PiecesFree([s[..i]], sep)
  {
    IndexOfFirst(s, sep);
    forall k: nat, j: nat | k < 1 ensures !OccursAt([s[..i]][k], sep, j) {
      assert [s[..i]][k] == s[..i];
      if j + |sep| <= i {
        assert s[..i][j..j + |sep|] == s[j..j + |sep|];
        assert !OccursAt(s, sep, j);
      }
    }
  }

  lemma PiecesFreeAppend(a: seq<string>, b: seq<string>, sep: string)
    requires PiecesFree(a, sep) && PiecesFree(b, sep)
    ensures PiecesFree(a + b, sep)
  {
    forall k: nat, j: nat | k < |a + b| ensures !OccursAt((a + b)[k], sep, j) {
      if k >= |a| {
        assert (a + b)[k] == b[k - |a|];
      }
    }
  }

  /** No piece of a split contains the separator. */
  lemma {:induction false} SplitPiecesFree(s: string, sep: string)
    requires |sep| > 0
    ensures PiecesFree(Split(s, sep), sep)
    decreases |s|
  {
    match IndexOf(s, sep)
    case None =>
      IndexOfFirst(s, sep);
      forall k: nat, j: nat | k < 1 ensures !OccursAt([s][k], sep, j) {
        if j > |s| {
          assert !OccursAt(s, sep, j);
        }
      }
    case Some(i) =>
      var rest := s[i + |sep|..];
      SplitPiecesFree(rest, sep);
      PrefixFree(s, sep, i);
      PiecesFreeAppend([s[..i]], Split(rest, sep), sep);
  }
}
