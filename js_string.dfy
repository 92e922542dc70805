/**
 * The JavaScript string primitives the plugin relies on, on `seq<char>`:
 * `trim`, the `/\s+/g` replacement, `split` and `join` on one character,
 * `includes`/`indexOf`, the first-occurrence `replace`, `endsWith`,
 * ASCII `toLowerCase`, and `length` measured in UTF-16 code units.
 */
module JsString {
  import opened Wrappers

  /** The characters matched by JavaScript's `\s` and removed by `trim`. */
  predicate IsWhitespace(c: char) {
    || c == '\t' || c == '\n' || c == '\U{000B}' || c == '\U{000C}' || c == '\r'
    || c == ' ' || c == '\U{00A0}' || c == '\U{1680}'
    || ('\U{2000}' <= c <= '\U{200A}')
    || c == '\U{2028}' || c == '\U{2029}' || c == '\U{202F}' || c == '\U{205F}'
    || c == '\U{3000}' || c == '\U{FEFF}'
  }

  /** The non-white-space characters of `s`, in order. */
  function NonWhitespace(s: string): string {
    if s == [] then []
    else (if IsWhitespace(s[0]) then [] else [s[0]]) + NonWhitespace(s[1..])
  }

  lemma {:induction false} NonWhitespaceAppend(a: string, b: string)
    ensures NonWhitespace(a + b) == NonWhitespace(a) + NonWhitespace(b)
  {
    if a == [] {
      assert a + b == b;
    } else {
      assert (a + b)[0] == a[0];
      assert (a + b)[1..] == a[1..] + b;
      NonWhitespaceAppend(a[1..], b);
      var head := if IsWhitespace(a[0]) then [] else [a[0]];
      assert NonWhitespace(a + b) == head + NonWhitespace(a[1..] + b);
      assert NonWhitespace(a) == head + NonWhitespace(a[1..]);
    }
  }

  /** `trimStart`: drops the leading run of white space. */
  function TrimStart(s: string): (r: string)
    ensures |r| <= |s|
  {
    if s != [] && IsWhitespace(s[0]) then TrimStart(s[1..]) else s
  }

  /** `trimStart` keeps a suffix, drops only white space, and stops at a non-white-space character. */
  lemma {:induction false} TrimStartSpec(s: string)
    ensures var r := TrimStart(s);
      && r == s[|s| - |r|..]
      && (r == [] || !IsWhitespace(r[0]))
      && (forall i :: 0 <= i < |s| - |r| ==> IsWhitespace(s[i]))
  {
    if s != [] && IsWhitespace(s[0]) {
      TrimStartSpec(s[1..]);
    }
  }

  /** `trimEnd`: drops the trailing run of white space. */
  function TrimEnd(s: string): (r: string)
    ensures |r| <= |s|
  {
    if s != [] && IsWhitespace(s[|s| - 1]) then TrimEnd(s[..|s| - 1]) else s
  }

  /** `trimEnd` keeps a prefix, drops only white space, and stops at a non-white-space character. */
  lemma {:induction false} TrimEndSpec(s: string)
    ensures var r := TrimEnd(s);
      && r == s[..|r|]
      && (r == [] || !IsWhitespace(r[|r| - 1]))
      && (forall i :: |r| <= i < |s| ==> IsWhitespace(s[i]))
  {
    if s != [] && IsWhitespace(s[|s| - 1]) {
      TrimEndSpec(s[..|s| - 1]);
    }
  }

  /** `trimStart` drops only white space. */
  lemma {:induction false} TrimStartKeepsNonWhitespace(s: string)
    ensures NonWhitespace(TrimStart(s)) == NonWhitespace(s)
  {
    if s != [] && IsWhitespace(s[0]) {
      TrimStartKeepsNonWhitespace(s[1..]);
    }
  }

  /** `trimEnd` drops only white space. */
  lemma {:induction false} TrimEndKeepsNonWhitespace(s: string)
    ensures NonWhitespace(TrimEnd(s)) == NonWhitespace(s)
  {
    if s != [] && IsWhitespace(s[|s| - 1]) {
      var init := s[..|s| - 1];
      TrimEndKeepsNonWhitespace(init);
      assert s == init + [s[|s| - 1]];
      NonWhitespaceAppend(init, [s[|s| - 1]]);
    }
  }

  /** `String.prototype.trim`. */
  function Trim(s: string): string {
    TrimEnd(TrimStart(s))
  }

  /** `s.replace(/\s+/g, " ")`: every maximal run of white space becomes one space. */
  function CollapseWhitespace(s: string): string
    decreases |s|
  {
    if s == [] then []
    else if IsWhitespace(s[0]) then " " + CollapseWhitespace(TrimStart(s))
    else [s[0]] + CollapseWhitespace(s[1..])
  }

  /** Only single spaces are left as white space, never two side by side. */
  ghost predicate Collapsed(s: string) {
    && (forall i :: 0 <= i < |s| && IsWhitespace(s[i]) ==> s[i] == ' ')
    && (forall i :: 0 <= i < |s| - 1 ==> !IsWhitespace(s[i]) || !IsWhitespace(s[i + 1]))
  }

  lemma {:induction false} CollapseWhitespaceShape(s: string)
    ensures var r := CollapseWhitespace(s);
      && Collapsed(r)
      && NonWhitespace(r) == NonWhitespace(s)
      && (r == [] <==> s == [])
      && (r != [] ==> (IsWhitespace(r[0]) <==> IsWhitespace(s[0])))
    decreases |s|
  {
    if s == [] {
    } else if IsWhitespace(s[0]) {
      var t := TrimStart(s);
      TrimStartSpec(s);
      CollapseWhitespaceShape(t);
      var rest := CollapseWhitespace(t);
      assert CollapseWhitespace(s) == " " + rest;
      NonWhitespaceAppend(" ", rest);
      TrimStartKeepsNonWhitespace(s);
    } else {
      CollapseWhitespaceShape(s[1..]);
      var rest := CollapseWhitespace(s[1..]);
      assert CollapseWhitespace(s) == [s[0]] + rest;
      NonWhitespaceAppend([s[0]], rest);
      assert s == [s[0]] + s[1..];
      NonWhitespaceAppend([s[0]], s[1..]);
    }
  }

  /** A collapsed string stays collapsed when its ends are cut off. */
  lemma CollapsedSlice(s: string, lo: nat, hi: nat)
    requires lo <= hi <= |s| && Collapsed(s)
    ensures Collapsed(s[lo..hi])
  {
    var t := s[lo..hi];
    forall i | 0 <= i < |t| - 1
      ensures !IsWhitespace(t[i]) || !IsWhitespace(t[i + 1])
    {
      assert t[i] == s[lo + i] && t[i + 1] == s[lo + i + 1];
    }
  }

  lemma TrimKeepsNonWhitespace(s: string)
    ensures NonWhitespace(Trim(s)) == NonWhitespace(s)
  {
    TrimStartKeepsNonWhitespace(s);
    TrimEndKeepsNonWhitespace(TrimStart(s));
  }

  /** `trim` keeps the slice between a leading and a trailing run of white space. */
  lemma TrimBounds(s: string) returns (lo: nat, hi: nat)
    ensures lo <= hi <= |s| && Trim(s) == s[lo..hi]
    ensures forall k :: 0 <= k < lo ==> IsWhitespace(s[k])
    ensures forall k :: hi <= k < |s| ==> IsWhitespace(s[k])
  {
    var a := TrimStart(s);
    TrimStartSpec(s);
    TrimEndSpec(a);
    lo := |s| - |a|;
    hi := lo + |TrimEnd(a)|;
    forall k | hi <= k < |s| ensures IsWhitespace(s[k]) {
      assert s[k] == a[k - lo];
    }
  }

  /** `trim` leaves no white space at either end. */
  lemma TrimEnds(c: string)
    ensures var r := Trim(c);
      r == [] || (!IsWhitespace(r[0]) && !IsWhitespace(r[|r| - 1]))
  {
    var a := TrimStart(c);
    var r := TrimEnd(a);
    TrimStartSpec(c);
    TrimEndSpec(a);
    if r != [] {
      assert r[0] == a[0];
    }
  }

  /** A string without white space at either end is its own `trim`. */
  lemma TrimOfTrimmed(s: string)
    requires s == [] || (!IsWhitespace(s[0]) && !IsWhitespace(s[|s| - 1]))
    ensures Trim(s) == s
  {
  }

  /** A collapsed string is its own collapse. */
  lemma {:induction false} CollapseOfCollapsed(s: string)
    requires Collapsed(s)
    ensures CollapseWhitespace(s) == s
    decreases |s|
  {
    if s == [] {
    } else if IsWhitespace(s[0]) {
      assert s[0] == ' ';
      var t := TrimStart(s);
      TrimStartSpec(s);
      if |s| > 1 {
        assert !IsWhitespace(s[1]);
        assert t == s[1..];
      } else {
        assert t == [];
      }
      CollapsedSlice(s, 1, |s|);
      CollapseOfCollapsed(s[1..]);
    } else {
      CollapsedSlice(s, 1, |s|);
      CollapseOfCollapsed(s[1..]);
      assert s == [s[0]] + s[1..];
    }
  }

  /** A non-empty run of white space. */
  ghost predicate IsGap(w: string) {
    w != [] && forall i :: 0 <= i < |w| ==> IsWhitespace(w[i])
  }

  /** A non-empty run without white space. */
  ghost predicate IsWord(w: string) {
    w != [] && forall i :: 0 <= i < |w| ==> !IsWhitespace(w[i])
  }

  /** `trimStart` drops a leading run of white space and no more. */
  lemma {:induction false} TrimStartWhitespace(w: string, b: string)
    requires forall i :: 0 <= i < |w| ==> IsWhitespace(w[i])
    requires b == [] || !IsWhitespace(b[0])
    ensures TrimStart(w + b) == b
    decreases |w|
  {
    if w == [] {
      assert w + b == b;
    } else {
      assert (w + b)[0] == w[0];
      assert (w + b)[1..] == w[1..] + b;
      TrimStartWhitespace(w[1..], b);
    }
  }

  /** `trimEnd` drops a trailing run of white space and no more. */
  lemma {:induction false} TrimEndWhitespace(a: string, w: string)
    requires forall i :: 0 <= i < |w| ==> IsWhitespace(w[i])
    requires a == [] || !IsWhitespace(a[|a| - 1])
    ensures TrimEnd(a + w) == a
    decreases |w|
  {
    if w == [] {
      assert a + w == a;
    } else {
      var init := w[..|w| - 1];
      assert (a + w)[|a + w| - 1] == w[|w| - 1];
      assert (a + w)[..|a + w| - 1] == a + init;
      TrimEndWhitespace(a, init);
    }
  }

  /** Text after a non-white-space character is kept by `trimStart` as it is. */
  lemma {:induction false} TrimStartAppend(a: string, c: string)
    requires a != [] && !IsWhitespace(a[|a| - 1])
    ensures TrimStart(a + c) == TrimStart(a) + c
    decreases |a|
  {
    assert (a + c)[0] == a[0];
    if IsWhitespace(a[0]) {
      assert (a + c)[1..] == a[1..] + c;
      TrimStartAppend(a[1..], c);
    }
  }

  /** A leading run of white space becomes one space. */
  lemma CollapseLeadingRun(w: string, b: string)
    requires IsGap(w)
    requires b == [] || !IsWhitespace(b[0])
    ensures CollapseWhitespace(w + b) == " " + CollapseWhitespace(b)
  {
    assert (w + b)[0] == w[0];
    TrimStartWhitespace(w, b);
  }

  /** Text ending in a non-white-space character collapses apart from what follows it. */
  lemma {:induction false} CollapseAppend(a: string, c: string)
    requires a == [] || !IsWhitespace(a[|a| - 1])
    ensures CollapseWhitespace(a + c) == CollapseWhitespace(a) + CollapseWhitespace(c)
    decreases |a|
  {
    if a == [] {
      assert a + c == c;
    } else {
      assert (a + c)[0] == a[0];
      if IsWhitespace(a[0]) {
        var t := TrimStart(a);
        TrimStartSpec(a);
        assert t != [] && t[|t| - 1] == a[|a| - 1];
        TrimStartAppend(a, c);
        CollapseAppend(t, c);
      } else {
        assert (a + c)[1..] == a[1..] + c;
        CollapseAppend(a[1..], c);
      }
    }
  }

  /**
   * A run of white space between two words becomes exactly one space: the
   * text before the run and the text after it collapse on their own.
   */
  lemma {:induction false} CollapseRun(a: string, w: string, b: string)
    requires IsGap(w)
    requires a == [] || !IsWhitespace(a[|a| - 1])
    requires b == [] || !IsWhitespace(b[0])
    ensures CollapseWhitespace(a + w + b) == CollapseWhitespace(a) + " " + CollapseWhitespace(b)
  {
    var wb := w + b;
    assert a + w + b == a + wb;
    CollapseAppend(a, wb);
    CollapseLeadingRun(w, b);
    var ca, cb := CollapseWhitespace(a), CollapseWhitespace(b);
    assert ca + (" " + cb) == ca + " " + cb;
  }

  /** Words separated by runs of white space: `words[0] gaps[0] words[1] …`. */
  function Interleave(words: seq<string>, gaps: seq<string>): string
    requires |words| >= 1 && |gaps| == |words| - 1
  {
    if |words| == 1 then words[0]
    else words[0] + gaps[0] + Interleave(words[1..], gaps[1..])
  }

  /** Text made of words and gaps starts with the first word and ends with the last. */
  lemma {:induction false} InterleaveEnds(words: seq<string>, gaps: seq<string>)
    requires |words| >= 1 && |gaps| == |words| - 1
    ensures StartsWith(Interleave(words, gaps), words[0])
    ensures EndsWith(Interleave(words, gaps), words[|words| - 1])
  {
    if |words| > 1 {
      InterleaveEnds(words[1..], gaps[1..]);
      var rest := Interleave(words[1..], gaps[1..]);
      assert Interleave(words, gaps) == words[0] + (gaps[0] + rest);
      assert Interleave(words, gaps) == (words[0] + gaps[0]) + rest;
    }
  }

  /** A join starts with its first part and ends with its last. */
  lemma {:induction false} JoinEnds(parts: seq<string>, sep: string)
    requires |parts| >= 1
    ensures StartsWith(Join(parts, sep), parts[0])
    ensures EndsWith(Join(parts, sep), parts[|parts| - 1])
  {
    if |parts| > 1 {
      JoinEnds(parts[1..], sep);
      var rest := Join(parts[1..], sep);
      assert Join(parts, sep) == parts[0] + (sep + rest);
      assert Join(parts, sep) == (parts[0] + sep) + rest;
    }
  }

  /**
   * `/\s+/g` replaced by `" "` turns words separated by runs of white
   * space into the same words separated by single spaces.
   */
  lemma {:induction false} CollapseWords(words: seq<string>, gaps: seq<string>)
    requires |words| >= 1 && |gaps| == |words| - 1
    requires forall i :: 0 <= i < |words| ==> IsWord(words[i])
    requires forall i :: 0 <= i < |gaps| ==> IsGap(gaps[i])
    ensures CollapseWhitespace(Interleave(words, gaps)) == Join(words, " ")
  {
    CollapseOfCollapsed(words[0]);
    if |words| > 1 {
      var rest := Interleave(words[1..], gaps[1..]);
      InterleaveEnds(words[1..], gaps[1..]);
      assert words[1..][0] == words[1];
      assert rest[0] == words[1][0];
      assert IsGap(gaps[0]);
      CollapseRun(words[0], gaps[0], rest);
      CollapseWords(words[1..], gaps[1..]);
    }
  }

  /** Trailing white space collapses to one space, or to nothing when there is none. */
  lemma {:induction false} CollapseTrailing(x: string, trail: string)
    requires forall i :: 0 <= i < |trail| ==> IsWhitespace(trail[i])
    requires x == [] || !IsWhitespace(x[|x| - 1])
    ensures CollapseWhitespace(x + trail) == CollapseWhitespace(x) + (if trail == [] then [] else " ")
  {
    if trail == [] {
      assert x + trail == x;
    } else {
      CollapseRun(x, trail, []);
      assert x + trail + [] == x + trail;
    }
  }

  /** Leading white space collapses to one space, or to nothing when there is none. */
  lemma {:induction false} CollapseLeading(lead: string, y: string)
    requires forall i :: 0 <= i < |lead| ==> IsWhitespace(lead[i])
    requires y == [] || !IsWhitespace(y[0])
    ensures CollapseWhitespace(lead + y) == (if lead == [] then [] else " ") + CollapseWhitespace(y)
  {
    if lead == [] {
      assert lead + y == y;
    } else {
      CollapseLeadingRun(lead, y);
    }
  }

  /** `trim` removes at most one space on each side of a text without white space at its ends. */
  lemma {:induction false} TrimAround(pre: string, c: string, post: string)
    requires forall i :: 0 <= i < |pre| ==> IsWhitespace(pre[i])
    requires forall i :: 0 <= i < |post| ==> IsWhitespace(post[i])
    requires c != [] && !IsWhitespace(c[0]) && !IsWhitespace(c[|c| - 1])
    ensures Trim(pre + (c + post)) == c
  {
    assert (c + post)[0] == c[0];
    TrimStartWhitespace(pre, c + post);
    TrimEndWhitespace(c, post);
  }

  /**
   * White space around words collapses to at most one space at each end,
   * and `trim` then removes it.
   */
  lemma {:induction false} TrimCollapseAround(lead: string, x: string, trail: string)
    requires forall i :: 0 <= i < |lead| ==> IsWhitespace(lead[i])
    requires forall i :: 0 <= i < |trail| ==> IsWhitespace(trail[i])
    requires x != [] && !IsWhitespace(x[0]) && !IsWhitespace(x[|x| - 1])
    requires var c := CollapseWhitespace(x); c != [] && !IsWhitespace(c[0]) && !IsWhitespace(c[|c| - 1])
    ensures Trim(CollapseWhitespace(lead + x + trail)) == CollapseWhitespace(x)
  {
    var c := CollapseWhitespace(x);
    var post: string := if trail == [] then [] else " ";
    var pre: string := if lead == [] then [] else " ";
    var xt := x + trail;
    CollapseTrailing(x, trail);
    assert CollapseWhitespace(xt) == c + post;
    assert xt[0] == x[0];
    CollapseLeading(lead, xt);
    assert lead + x + trail == lead + xt;
    assert CollapseWhitespace(lead + x + trail) == pre + (c + post);
    TrimAround(pre, c, post);
  }

  // ---------------------------------------------------------------------
  // split and join on a single-character separator

  /** `s.split(sep)` for a one-character separator: empty pieces are kept. */
  function Split(s: string, sep: char): (parts: seq<string>)
    ensures |parts| >= 1
    ensures forall i :: 0 <= i < |parts| ==> sep !in parts[i]
  {
    if s == [] then [""]
    else
      var rest := Split(s[1..], sep);
      if s[0] == sep then [""] + rest
      else [[s[0]] + rest[0]] + rest[1..]
  }

  /** `parts.join(sep)`; the join of no parts is the empty string. */
  function Join(parts: seq<string>, sep: string): string {
    if |parts| == 0 then ""
    else if |parts| == 1 then parts[0]
    else parts[0] + sep + Join(parts[1..], sep)
  }

  /** Joining the pieces of a split gives back the string. */
  lemma {:induction false} JoinSplit(s: string, sep: char)
    ensures Join(Split(s, sep), [sep]) == s
  {
    if s != [] {
      JoinSplit(s[1..], sep);
      var rest := Split(s[1..], sep);
      if s[0] == sep {
        assert Split(s, sep) == [""] + rest;
        assert ([""] + rest)[1..] == rest;
      } else {
        var parts := Split(s, sep);
        assert parts == [[s[0]] + rest[0]] + rest[1..];
        if |rest| == 1 {
        } else {
          assert parts[1..] == rest[1..];
          assert Join(rest, [sep]) == rest[0] + [sep] + Join(rest[1..], [sep]);
        }
      }
    }
  }

  /** Joining two non-empty lists of parts puts the separator between the joins. */
  lemma {:induction false} JoinAppend(ps: seq<string>, qs: seq<string>, sep: string)
    requires |ps| >= 1 && |qs| >= 1
    ensures Join(ps + qs, sep) == Join(ps, sep) + sep + Join(qs, sep)
  {
    if |ps| == 1 {
      assert (ps + qs)[1..] == qs;
    } else {
      assert (ps + qs)[1..] == ps[1..] + qs;
      JoinAppend(ps[1..], qs, sep);
    }
  }

  /** Where part `i` starts in `Join(parts, sep)`: the lengths of the parts before it, each with a separator. */
  function JoinOffset(parts: seq<string>, sep: string, i: nat): nat
    requires i <= |parts|
  {
    if i == 0 then 0 else JoinOffset(parts, sep, i - 1) + |parts[i - 1]| + |sep|
  }

  /** Part `i` sits at its offset in `r`. */
  ghost predicate PartAt(r: string, parts: seq<string>, sep: string, i: nat)
    requires i < |parts|
  {
    var o := JoinOffset(parts, sep, i);
    o + |parts[i]| <= |r| && r[o..o + |parts[i]|] == parts[i]
  }

  /** The separator follows part `i` in `r`. */
  ghost predicate SeparatorAfter(r: string, parts: seq<string>, sep: string, i: nat)
    requires i < |parts|
  {
    var o := JoinOffset(parts, sep, i) + |parts[i]|;
    o + |sep| <= |r| && r[o..o + |sep|] == sep
  }

  /**
   * `r` is `parts` laid end to end with `sep` between each two: part `i`
   * sits at its offset, a separator follows every part but the last, and
   * nothing follows the last part.
   */
  ghost predicate IsJoinOf(r: string, parts: seq<string>, sep: string) {
    && (forall i :: 0 <= i < |parts| ==> PartAt(r, parts, sep, i))
    && (forall i :: 0 <= i < |parts| - 1 ==> SeparatorAfter(r, parts, sep, i))
    && |r| == (if parts == [] then 0 else JoinOffset(parts, sep, |parts| - 1) + |parts[|parts| - 1]|)
  }

  /** The offsets in a list are those of its tail, shifted by the first part and a separator. */
  lemma {:induction false} JoinOffsetShift(parts: seq<string>, sep: string, i: nat)
    requires 1 <= |parts| && i < |parts|
    ensures JoinOffset(parts, sep, i + 1) == |parts[0]| + |sep| + JoinOffset(parts[1..], sep, i)
  {
    if i > 0 {
      JoinOffsetShift(parts, sep, i - 1);
      assert parts[1..][i - 1] == parts[i];
    }
  }

  /** A slice past a prefix is a slice of what follows it. */
  lemma SliceAfterPrefix(x: string, y: string, k: nat, n: nat)
    requires |x| <= k && k + n <= |x| + |y|
    ensures (x + y)[k..k + n] == y[k - |x|..k - |x| + n]
  {
  }

  /** Part `i` of a join sits at its offset. */
  lemma {:induction false} JoinPartAt(parts: seq<string>, sep: string, i: nat)
    requires i < |parts|
    ensures PartAt(Join(parts, sep), parts, sep, i)
  {
    var r := Join(parts, sep);
    if |parts| >= 2 {
      var head, rest := parts[0] + sep, Join(parts[1..], sep);
      assert r == head + rest;
      if i == 0 {
        assert r[..|parts[0]|] == parts[0];
      } else {
        JoinPartAt(parts[1..], sep, i - 1);
        JoinOffsetShift(parts, sep, i - 1);
        var o' := JoinOffset(parts[1..], sep, i - 1);
        assert parts[1..][i - 1] == parts[i];
        assert rest[o'..o' + |parts[i]|] == parts[i];
        SliceAfterPrefix(head, rest, |head| + o', |parts[i]|);
      }
    }
  }

  /** The separator follows the first part of a join of two or more. */
  lemma JoinFirstSeparator(parts: seq<string>, sep: string)
    requires 2 <= |parts|
    ensures SeparatorAfter(Join(parts, sep), parts, sep, 0)
  {
    var head, rest := parts[0] + sep, Join(parts[1..], sep);
    assert Join(parts, sep) == head + rest;
    assert JoinOffset(parts, sep, 0) == 0;
    assert (head + rest)[|parts[0]|..|head|] == head[|parts[0]|..];
  }

  /** A separator follows every part of a join but the last. */
  lemma {:induction false} JoinSeparatorAfter(parts: seq<string>, sep: string, i: nat)
    requires i + 1 < |parts|
    ensures SeparatorAfter(Join(parts, sep), parts, sep, i)
  {
    var head, rest := parts[0] + sep, Join(parts[1..], sep);
    if i == 0 {
      JoinFirstSeparator(parts, sep);
    } else {
      assert Join(parts, sep) == head + rest;
      JoinSeparatorAfter(parts[1..], sep, i - 1);
      JoinOffsetShift(parts, sep, i - 1);
      assert parts[1..][i - 1] == parts[i];
      var o' := JoinOffset(parts[1..], sep, i - 1) + |parts[i]|;
      assert rest[o'..o' + |sep|] == sep;
      SliceAfterPrefix(head, rest, |head| + o', |sep|);
      assert JoinOffset(parts, sep, i) + |parts[i]| == |head| + o';
    }
  }

  /** A join ends with its last part. */
  lemma {:induction false} JoinLength(parts: seq<string>, sep: string)
    requires |parts| >= 1
    ensures |Join(parts, sep)| == JoinOffset(parts, sep, |parts| - 1) + |parts[|parts| - 1]|
  {
    if |parts| >= 2 {
      JoinLength(parts[1..], sep);
      JoinOffsetShift(parts, sep, |parts| - 2);
      assert parts[1..][|parts| - 2] == parts[|parts| - 1];
    }
  }

  /** `Join` lays its parts out in order, a separator between each two. */
  lemma JoinLayout(parts: seq<string>, sep: string)
    ensures IsJoinOf(Join(parts, sep), parts, sep)
  {
    forall i | 0 <= i < |parts| ensures PartAt(Join(parts, sep), parts, sep, i) {
      JoinPartAt(parts, sep, i);
    }
    forall i | 0 <= i < |parts| - 1 ensures SeparatorAfter(Join(parts, sep), parts, sep, i) {
      JoinSeparatorAfter(parts, sep, i);
    }
    if parts != [] {
      JoinLength(parts, sep);
    }
  }

  /** A string without the separator splits into itself. */
  lemma {:induction false} SplitWithoutSeparator(s: string, sep: char)
    requires sep !in s
    ensures Split(s, sep) == [s]
  {
    if s != [] {
      SplitWithoutSeparator(s[1..], sep);
      assert [s[0]] + s[1..] == s;
    }
  }

  /** Splitting the join of separator-free parts gives back the parts. */
  lemma {:induction false} SplitJoin(parts: seq<string>, sep: char)
    requires |parts| >= 1
    requires forall i :: 0 <= i < |parts| ==> sep !in parts[i]
    ensures Split(Join(parts, [sep]), sep) == parts
  {
    if |parts| == 1 {
      SplitWithoutSeparator(parts[0], sep);
    } else {
      SplitJoin(parts[1..], sep);
      SplitAfterSeparatorFree(parts[0], Join(parts[1..], [sep]), sep);
      assert [parts[0]] + parts[1..] == parts;
    }
  }

  lemma {:induction false} SplitAfterSeparatorFree(a: string, b: string, sep: char)
    requires sep !in a
    ensures Split(a + [sep] + b, sep) == [a] + Split(b, sep)
  {
    if a == [] {
      assert [] + [sep] + b == [sep] + b;
      assert ([sep] + b)[1..] == b;
    } else {
      SplitAfterSeparatorFree(a[1..], b, sep);
      assert (a + [sep] + b)[1..] == a[1..] + [sep] + b;
      assert [a[0]] + a[1..] == a;
    }
  }

  /**
   * The first piece of a split is the text before the first separator: it
   * starts the string and is followed by the separator or by nothing.
   */
  lemma {:induction false} SplitFirstPiece(s: string, sep: char)
    ensures var p := Split(s, sep)[0];
      && sep !in p
      && StartsWith(s, p)
      && (|p| == |s| || s[|p|] == sep)
  {
    if s != [] && s[0] != sep {
      SplitFirstPiece(s[1..], sep);
    }
  }

  /** Joining puts every part somewhere in the result. */
  lemma {:induction false} JoinIncludesEach(parts: seq<string>, sep: string, i: nat)
    requires i < |parts|
    ensures Includes(Join(parts, sep), parts[i])
  {
    var j := Join(parts, sep);
    if i == 0 {
      if |parts| > 1 {
        assert j == parts[0] + (sep + Join(parts[1..], sep));
      }
      PrefixIncluded(j, parts[0]);
    } else {
      JoinIncludesEach(parts[1..], sep, i - 1);
      var rest := Join(parts[1..], sep);
      IncludesIff(rest, parts[i]);
      var k :| OccursAt(rest, parts[i], k);
      var a := parts[0] + sep;
      assert j == a + rest;
      assert j[|a| + k..|a| + k + |parts[i]|] == rest[k..k + |parts[i]|];
      assert OccursAt(j, parts[i], |a| + k);
      IncludesIff(j, parts[i]);
    }
  }

  /** Splitting at a separator splits each side on its own. */
  lemma SplitConcat(a: string, b: string, sep: char)
    ensures Split(a + [sep] + b, sep) == Split(a, sep) + Split(b, sep)
  {
    var ps, qs := Split(a, sep), Split(b, sep);
    JoinSplit(a, sep);
    JoinSplit(b, sep);
    JoinAppend(ps, qs, [sep]);
    SplitJoin(ps + qs, sep);
  }

  // ---------------------------------------------------------------------
  // includes, indexOf, replace, endsWith

  predicate OccursAt(s: string, t: string, i: int) {
    0 <= i && i + |t| <= |s| && s[i..i + |t|] == t
  }

  /** `s.indexOf(t, from)`: the first occurrence of `t` at or after `from`. */
  function IndexFrom(s: string, t: string, from: nat): (r: Option<nat>)
    requires from <= |s| + 1
    ensures r.Some? ==> from <= r.value && OccursAt(s, t, r.value)
    ensures r.Some? ==> forall j :: from <= j < r.value ==> !OccursAt(s, t, j)
    ensures r.None? ==> forall j :: from <= j ==> !OccursAt(s, t, j)
    decreases |s| + 1 - from
  {
    if from + |t| > |s| then None
    else if s[from..from + |t|] == t then Some(from)
    else IndexFrom(s, t, from + 1)
  }

  /** `s.indexOf(t)`. */
  function IndexOf(s: string, t: string): Option<nat> {
    IndexFrom(s, t, 0)
  }

  /** `s.includes(t)`. */
  predicate Includes(s: string, t: string) {
    IndexOf(s, t).Some?
  }

  lemma IncludesIff(s: string, t: string)
    ensures Includes(s, t) <==> exists i :: OccursAt(s, t, i)
  {
  }

  /** A string that lacks one of the characters of `t` cannot include `t`. */
  lemma MissingCharNotIncluded(s: string, t: string, c: char)
    requires c in t && c !in s
    ensures !Includes(s, t)
  {
  }

  /** A string that starts with `t` includes it. */
  lemma PrefixIncluded(s: string, t: string)
    requires |t| <= |s| && s[..|t|] == t
    ensures Includes(s, t)
  {
    assert OccursAt(s, t, 0);
  }

  /** `s.replace(pat, rep)` with a string pattern: only the first occurrence is replaced. */
  function ReplaceFirst(s: string, pat: string, rep: string): string {
    match IndexOf(s, pat)
    case None => s
    case Some(i) => s[..i] + rep + s[i + |pat|..]
  }

  /** `s.endsWith(t)`. */
  predicate EndsWith(s: string, t: string) {
    |t| <= |s| && s[|s| - |t|..] == t
  }

  /** Text put in front keeps the ending. */
  lemma EndsWithPrepend(a: string, s: string, t: string)
    requires EndsWith(s, t)
    ensures EndsWith(a + s, t)
  {
    assert (a + s)[|a + s| - |t|..] == s[|s| - |t|..];
  }

  lemma EndsWithAppend(s: string, t: string, u: string)
    requires EndsWith(s, t + u)
    ensures EndsWith(s, u)
  {
    assert s[|s| - |u|..] == (t + u)[|t|..];
  }

  /** `s.startsWith(t)`. */
  predicate StartsWith(s: string, t: string) {
    |t| <= |s| && s[..|t|] == t
  }

  // ---------------------------------------------------------------------
  // toLowerCase and length

  predicate IsUpperAscii(c: char) {
    'A' <= c <= 'Z'
  }

  function LowerChar(c: char): char {
    if IsUpperAscii(c) then (c as int + 32) as char else c
  }

  /** `s.toLowerCase()`, on the ASCII letters. */
  function ToLowerCase(s: string): string {
    if s == [] then [] else [LowerChar(s[0])] + ToLowerCase(s[1..])
  }

  /** Lower-casing maps each character on its own and keeps the length. */
  lemma {:induction false} ToLowerCaseSpec(s: string)
    ensures |ToLowerCase(s)| == |s|
    ensures forall i :: 0 <= i < |s| ==> ToLowerCase(s)[i] == LowerChar(s[i])
  {
    if s != [] {
      ToLowerCaseSpec(s[1..]);
    }
  }

  /** `s.length`: JavaScript counts UTF-16 code units, two for a character beyond U+FFFF. */
  function Utf16Length(s: string): nat {
    if s == [] then 0
    else (if s[0] as int > 0xFFFF then 2 else 1) + Utf16Length(s[1..])
  }

  lemma {:induction false} Utf16LengthAppend(a: string, b: string)
    ensures Utf16Length(a + b) == Utf16Length(a) + Utf16Length(b)
  {
    if a == [] {
      assert a + b == b;
    } else {
      assert (a + b)[0] == a[0];
      assert (a + b)[1..] == a[1..] + b;
      Utf16LengthAppend(a[1..], b);
    }
  }

  lemma {:induction false} Utf16LengthBounds(s: string)
    ensures |s| <= Utf16Length(s) <= 2 * |s|
  {
    if s != [] {
      Utf16LengthBounds(s[1..]);
    }
  }

  /** JavaScript's `String(n)` for an integer. */
  function IntToString(n: int): string {
    if n < 0 then "-" + NatToString(-n) else NatToString(n)
  }

  function NatToString(n: nat): (r: string)
    ensures r != []
    ensures forall i :: 0 <= i < |r| ==> '0' <= r[i] <= '9'
  {
    if n < 10 then [DigitChar(n)] else NatToString(n / 10) + [DigitChar(n % 10)]
  }

  function DigitChar(d: nat): (c: char)
    requires d < 10
    ensures '0' <= c <= '9'
  {
    ('0' as int + d) as char
  }
}
