/**
 * The reasoning-tag stripper of app.py (remove_think_tags): every
 * `<think>...</think>` span is dropped by a left-to-right scan that ends each
 * span at the nearest close tag and lets a span run across newlines (a
 * non-greedy regular-expression substitution with the dot matching every
 * character), then leading and trailing whitespace is removed as Python's
 * `str.strip()` does.
 */
module ThinkTags {
  import opened Sequences
  import opened Optional

  const Open: string := "<think>"
  const Close: string := "</think>"

  /** The characters for which Python's `str.isspace()` holds, i.e. what `str.strip()` removes. */
  predicate IsWhitespace(c: char)
  {
    var n := c as int;
    (0x09 <= n <= 0x0D) || (0x1C <= n <= 0x20) || n == 0x85 || n == 0xA0 || n == 0x1680 ||
    (0x2000 <= n <= 0x200A) || n == 0x2028 || n == 0x2029 || n == 0x202F || n == 0x205F || n == 0x3000
  }

  predicate AllWhitespace(s: string)
  {
    forall i :: 0 <= i < |s| ==> IsWhitespace(s[i])
  }

  /** Neither end of `s` is a whitespace character. */
  predicate Trimmed(s: string)
  {
    s == [] || (!IsWhitespace(s[0]) && !IsWhitespace(s[|s| - 1]))
  }

  /** Removes the leading whitespace: what is dropped is all whitespace, what is kept starts with none. */
  function TrimStart(s: string): (r: string)
    ensures |r| <= |s| && r == s[|s| - |r|..]
    ensures AllWhitespace(s[..|s| - |r|])
    ensures r == [] || !IsWhitespace(r[0])
    decreases |s|
  {
    if |s| > 0 && IsWhitespace(s[0]) then
      var r := TrimStart(s[1..]);
      assert s[..|s| - |r|] == [s[0]] + s[1..][..|s| - 1 - |r|];
      r
    else s
  }

  /** Removes the trailing whitespace: what is dropped is all whitespace, what is kept ends with none. */
  function TrimEnd(s: string): (r: string)
    ensures |r| <= |s| && r == s[..|r|]
    ensures AllWhitespace(s[|r|..])
    ensures r == [] || !IsWhitespace(r[|r| - 1])
    decreases |s|
  {
    if |s| > 0 && IsWhitespace(s[|s| - 1]) then
      var r := TrimEnd(s[..|s| - 1]);
      assert s[|r|..] == s[..|s| - 1][|r|..] + [s[|s| - 1]];
      r
    else s
  }

  /**
   * Python's `s.strip()`: `s` without the whitespace at either end. Neither
   * end of the result is whitespace, and a string that is already trimmed is
   * returned as it is.
   */
  function Strip(s: string): (r: string)
    ensures Trimmed(r)
    ensures |r| <= |s|
    ensures Trimmed(s) ==> r == s
  {
    TrimEnd(TrimStart(s))
  }

  /**
   * What Strip removes is whitespace and only whitespace: the result is the
   * infix `s[i..j]`, with nothing but whitespace before `i` and after `j`.
   */
  lemma StripIsInfix(s: string) returns (i: nat, j: nat)
    ensures i <= j <= |s|
    ensures Strip(s) == s[i..j]
    ensures AllWhitespace(s[..i]) && AllWhitespace(s[j..])
  {
    var t := TrimStart(s);
    var r := TrimEnd(t);
    i := |s| - |t|;
    j := i + |r|;
    assert r == s[i..j];
    assert s[j..] == t[|r|..];
  }

  // ---------------------------------------------------------------------
  // Finding a tag

  /** `pat` occurs in `t` at index `k`. */
  predicate OccursAt(pat: string, t: string, k: nat)
  {
    k + |pat| <= |t| && t[k..k + |pat|] == pat
  }

  /** `pat` occurs nowhere in `t`. */
  predicate NoOccurrence(pat: string, t: string)
  {
    forall k: nat :: k <= |t| ==> !OccursAt(pat, t, k)
  }

  /** Occurrences in a suffix are occurrences in the whole, shifted. */
  lemma OccursAtDrop(pat: string, t: string, d: nat, k: nat)
    requires d <= |t|
    ensures OccursAt(pat, t[d..], k) == OccursAt(pat, t, d + k)
  {
    if d + k + |pat| <= |t| {
      assert t[d..][k..k + |pat|] == t[d + k..d + k + |pat|];
    }
  }

  /** Occurrences inside the left part of a concatenation are occurrences in that part. */
  lemma OccursAtLeft(pat: string, a: string, b: string, k: nat)
    requires k + |pat| <= |a|
    ensures OccursAt(pat, a + b, k) == OccursAt(pat, a, k)
  {
    assert (a + b)[k..k + |pat|] == a[k..k + |pat|];
  }

  /** Occurrences in the right part of a concatenation are occurrences in that part, shifted. */
  lemma OccursAtRight(pat: string, a: string, b: string, k: nat)
    ensures OccursAt(pat, a + b, |a| + k) == OccursAt(pat, b, k)
  {
    assert (a + b)[|a|..] == b;
    OccursAtDrop(pat, a + b, |a|, k);
  }

  /** The index of the first occurrence of `pat` in `t`, if there is one. */
  function FindFirst(pat: string, t: string): (r: Option<nat>)
    ensures r.Some? ==> OccursAt(pat, t, r.value)
    ensures r.Some? ==> forall k: nat :: k < r.value ==> !OccursAt(pat, t, k)
    ensures r.None? <==> NoOccurrence(pat, t)
    decreases |t|
  {
    if OccursAt(pat, t, 0) then Some(0)
    else if |t| == 0 then None
    else
      var r := FindFirst(pat, t[1..]);
      assert forall k: nat :: OccursAt(pat, t[1..], k) == OccursAt(pat, t, k + 1) by {
        forall k: nat ensures OccursAt(pat, t[1..], k) == OccursAt(pat, t, k + 1) {
          OccursAtDrop(pat, t, 1, k);
        }
      }
      assert forall k: nat :: k >= 1 ==> OccursAt(pat, t, k) == OccursAt(pat, t[1..], k - 1);
      match r
      case None => None
      case Some(j) => Some(j + 1)
  }

  /**
   * Where the scan resumes when a complete span starts at the beginning of
   * `s`: just past the nearest `</think>` that begins after the `<think>`.
   * None when `s` does not start with `<think>` or no such close tag follows.
   */
  function SpanEnd(s: string): (r: Option<nat>)
    ensures r.Some? ==> |Open| + |Close| <= r.value <= |s|
  {
    if OccursAt(Open, s, 0) then
      match FindFirst(Close, s[|Open|..])
      case Some(j) => Some(|Open| + j + |Close|)
      case None => None
    else None
  }

  /**
   * The regex substitution, scanning left to right. Where a complete span
   * starts, it is dropped along with both tags and scanning resumes after
   * the close tag; anywhere else the character is kept. Any character,
   * newlines included, may lie inside a span.
   */
  function DropSpans(s: string): (r: string)
    ensures |r| <= |s|
    decreases |s|
  {
    if s == [] then []
    else
      match SpanEnd(s)
      case Some(e) => DropSpans(s[e..])
      case None => [s[0]] + DropSpans(s[1..])
  }

  /** remove_think_tags: the spans dropped, then the whitespace at both ends. */
  function RemoveThinkTags(s: string): (r: string)
    ensures Trimmed(r)
    ensures |r| <= |s|
  {
    Strip(DropSpans(s))
  }

  // ---------------------------------------------------------------------
  // Occurrences of the tags

  /** Both tags begin with '<' and contain no other '<'. */
  lemma TagShapes()
    ensures Open[0] == '<' && forall i :: 1 <= i < |Open| ==> Open[i] != '<'
    ensures Close[0] == '<' && forall i :: 1 <= i < |Close| ==> Close[i] != '<'
  {
  }

  /** A tag cannot occur in a string that has no '<'. */
  lemma NoOccurrenceWithoutAngle(pat: string, t: string)
    requires |pat| > 0 && pat[0] == '<'
    requires '<' !in t
    ensures NoOccurrence(pat, t)
  {
    forall k: nat ensures !OccursAt(pat, t, k) {
      if k + |pat| <= |t| {
        assert t[k..k + |pat|][0] == t[k];
      }
    }
  }

  /**
   * A tag occurrence in `a + t` that begins inside `a` lies inside `a` when
   * `t` starts with '<': no tag can straddle the boundary, since its '<' is
   * only at its start.
   */
  lemma NoStraddle(pat: string, a: string, t: string, k: nat)
    requires pat == Open || pat == Close
    requires t == [] || t[0] == '<'
    requires k < |a| && OccursAt(pat, a + t, k)
    ensures OccursAt(pat, a, k)
  {
    TagShapes();
    var s := a + t;
    assert forall j :: k < j < k + |pat| ==> s[j] == s[k..k + |pat|][j - k] == pat[j - k];
    assert t != [] ==> s[|a|] == '<';
    OccursAtLeft(pat, a, t, k);
  }

  /** The nearest `</think>` in `m + Close + b` is the one right after `m`, when `m` holds none. */
  lemma NearestClose(m: string, b: string)
    requires NoOccurrence(Close, m)
    ensures FindFirst(Close, m + Close + b) == Some(|m|)
  {
    var u := m + (Close + b);
    assert u == m + Close + b;
    OccursAtRight(Close, m, Close + b, 0);
    OccursAtLeft(Close, Close, b, 0);
    assert Close[0..|Close|] == Close;
    forall k: nat | k < |m| ensures !OccursAt(Close, u, k) {
      if OccursAt(Close, u, k) {
        NoStraddle(Close, m, Close + b, k);
      }
    }
    var r := FindFirst(Close, u);
    assert r.Some?;
  }

  /** A search for `</think>` in `a + t` finds what the search in `a` finds, when `t` has none and starts with '<'. */
  lemma FindCloseAppend(a: string, t: string)
    requires t == [] || t[0] == '<'
    requires NoOccurrence(Close, t)
    ensures FindFirst(Close, a + t) == FindFirst(Close, a)
  {
    var u := a + t;
    forall k: nat | k >= |a| ensures !OccursAt(Close, u, k) {
      OccursAtRight(Close, a, t, k - |a|);
    }
    forall k: nat | k < |a| && OccursAt(Close, u, k) ensures OccursAt(Close, a, k) {
      NoStraddle(Close, a, t, k);
    }
    var r := FindFirst(Close, u);
    match FindFirst(Close, a)
    case Some(j) =>
      OccursAtLeft(Close, a, t, j);
      assert r.Some?;
      assert r.value <= j;
      assert OccursAt(Close, a, r.value);
      assert r.value == j;
    case None =>
      assert NoOccurrence(Close, u);
  }

  // ---------------------------------------------------------------------
  // What the scan keeps and what it drops

  /** Text before the first `<think>` is kept as it is. */
  lemma {:induction false} OpenFreePrefixKept(a: string, t: string)
    requires NoOccurrence(Open, a)
    requires t == [] || t[0] == '<'
    ensures DropSpans(a + t) == a + DropSpans(t)
    decreases |a|
  {
    if a == [] {
      assert a + t == t;
    } else {
      var s := a + t;
      if OccursAt(Open, s, 0) {
        NoStraddle(Open, a, t, 0);
        assert false;
      }
      assert SpanEnd(s).None?;
      assert s[1..] == a[1..] + t;
      forall k: nat ensures !OccursAt(Open, a[1..], k) {
        OccursAtDrop(Open, a, 1, k);
      }
      OpenFreePrefixKept(a[1..], t);
      AppendAssoc([a[0]], a[1..], DropSpans(t));
      assert [a[0]] + a[1..] == a;
    }
  }

  /** A string without `</think>` has no complete span, so the scan keeps all of it. */
  lemma {:induction false} CloseFreeKept(s: string)
    requires NoOccurrence(Close, s)
    ensures DropSpans(s) == s
    decreases |s|
  {
    if s != [] {
      if OccursAt(Open, s, 0) {
        forall k: nat ensures !OccursAt(Close, s[|Open|..], k) {
          OccursAtDrop(Close, s, |Open|, k);
        }
      }
      assert SpanEnd(s).None?;
      forall k: nat ensures !OccursAt(Close, s[1..], k) {
        OccursAtDrop(Close, s, 1, k);
      }
      CloseFreeKept(s[1..]);
      assert [s[0]] + s[1..] == s;
    }
  }

  /** A span whose body holds no `</think>` is dropped whole, both tags included. */
  lemma SpanDropped(m: string, b: string)
    requires NoOccurrence(Close, m)
    ensures DropSpans(Open + m + Close + b) == DropSpans(b)
  {
    var s := Open + (m + Close + b);
    assert s == Open + m + Close + b;
    OccursAtLeft(Open, Open, m + Close + b, 0);
    assert Open[0..|Open|] == Open;
    assert s[|Open|..] == m + Close + b;
    NearestClose(m, b);
    assert SpanEnd(s) == Some(|Open| + |m| + |Close|);
    assert s[|Open| + |m| + |Close|..] == b;
  }

  /**
   * Each span is removed and scanning goes on after it, so later spans are
   * removed too: `a <think> m </think> b` becomes `a` followed by what the
   * scan makes of `b`, when `a` holds no `<think>` and `m` no `</think>`
   * (the close tag matched is the nearest one).
   */
  lemma ThinkSpanRemoved(a: string, m: string, b: string)
    requires NoOccurrence(Open, a)
    requires NoOccurrence(Close, m)
    ensures DropSpans(a + Open + m + Close + b) == a + DropSpans(b)
  {
    assert a + Open + m + Close + b == a + (Open + m + Close + b);
    OpenFreePrefixKept(a, Open + m + Close + b);
    SpanDropped(m, b);
  }

  /**
   * Whether a complete span starts at the beginning of `a`, and where it
   * ends, does not change when a tail that starts with '<' and holds no
   * `</think>` is appended.
   */
  lemma SpanEndIgnoresTail(a: string, t: string)
    requires a != []
    requires t == [] || t[0] == '<'
    requires NoOccurrence(Close, t)
    ensures SpanEnd(a + t) == SpanEnd(a)
  {
    var s := a + t;
    if OccursAt(Open, s, 0) {
      NoStraddle(Open, a, t, 0);
      assert s[|Open|..] == a[|Open|..] + t;
      FindCloseAppend(a[|Open|..], t);
    } else if |a| >= |Open| {
      OccursAtLeft(Open, a, t, 0);
    }
  }

  /**
   * A tail starting with '<' that holds no `</think>` (an unterminated
   * `<think>...`, say) is left untouched, whatever comes before it.
   */
  lemma {:induction false} UnterminatedTailKept(a: string, t: string)
    requires t == [] || t[0] == '<'
    requires NoOccurrence(Close, t)
    ensures DropSpans(a + t) == DropSpans(a) + t
    decreases |a|
  {
    var s := a + t;
    if a == [] {
      assert s == t;
      CloseFreeKept(t);
    } else {
      SpanEndIgnoresTail(a, t);
      match SpanEnd(a)
      case Some(e) =>
        assert DropSpans(s) == DropSpans(s[e..]);
        assert s[e..] == a[e..] + t;
        UnterminatedTailKept(a[e..], t);
      case None =>
        assert DropSpans(s) == [s[0]] + DropSpans(s[1..]);
        assert s[1..] == a[1..] + t;
        UnterminatedTailKept(a[1..], t);
        AppendAssoc([a[0]], DropSpans(a[1..]), t);
    }
  }

  // ---------------------------------------------------------------------
  // The stripper as a whole

  /** Without any `<think>` in the input, remove_think_tags only strips the whitespace at both ends. */
  lemma NoThinkTagOnlyStrips(s: string)
    requires NoOccurrence(Open, s)
    ensures RemoveThinkTags(s) == Strip(s)
  {
    OpenFreePrefixKept(s, []);
    assert s + [] == s;
  }

  /**
   * The usual shape of a reasoning model's reply: one span, then the answer.
   * The span goes, whatever its body holds (newlines included), and so does
   * the whitespace around the answer.
   */
  lemma SpanBeforeAnswer(m: string, b: string)
    requires NoOccurrence(Close, m)
    requires NoOccurrence(Open, b)
    ensures RemoveThinkTags(Open + m + Close + b) == Strip(b)
  {
    SpanDropped(m, b);
    OpenFreePrefixKept(b, []);
    assert b + [] == b;
  }

  /** Every span is removed, not only the first: `a<think>m1</think>b<think>m2</think>c` becomes `a + b + c`, stripped. */
  lemma TwoSpansRemoved(a: string, m1: string, b: string, m2: string, c: string)
    requires NoOccurrence(Open, a) && NoOccurrence(Open, b) && NoOccurrence(Open, c)
    requires NoOccurrence(Close, m1) && NoOccurrence(Close, m2)
    ensures RemoveThinkTags(a + Open + m1 + Close + b + Open + m2 + Close + c) == Strip(a + b + c)
  {
    var tail := b + Open + m2 + Close + c;
    assert a + Open + m1 + Close + b + Open + m2 + Close + c == a + Open + m1 + Close + tail;
    ThinkSpanRemoved(a, m1, tail);
    ThinkSpanRemoved(b, m2, c);
    OpenFreePrefixKept(c, []);
    assert c + [] == c;
    AppendAssoc(a, b, c);
    assert DropSpans(a + Open + m1 + Close + b + Open + m2 + Close + c) == a + b + c;
  }

  /** An open tag with no close tag after it is kept, with everything after it. */
  lemma UnterminatedOpenKept(a: string, u: string)
    requires NoOccurrence(Close, Open + u)
    ensures RemoveThinkTags(a + Open + u) == Strip(DropSpans(a) + Open + u)
  {
    AppendAssoc(a, Open, u);
    TagShapes();
    assert (Open + u)[0] == '<';
    UnterminatedTailKept(a, Open + u);
    AppendAssoc(DropSpans(a), Open, u);
  }

  /** A close tag on its own is kept: its '<' starts no open tag and the rest has no '<'. */
  lemma CloseAloneKept()
    ensures DropSpans(Close) == Close
  {
    TagShapes();
    var tail := Close[1..];
    assert '<' !in tail;
    NoOccurrenceWithoutAngle(Open, tail);
    assert Close[0..|Open|][1] != Open[1];
    assert !OccursAt(Open, Close, 0);
    assert SpanEnd(Close).None?;
    OpenFreePrefixKept(tail, []);
    assert tail + [] == tail;
    assert [Close[0]] + tail == Close;
  }

  /** The pieces left around the removed span spell a complete span. */
  lemma PiecesRejoin(y: string)
    ensures "<thi" + ("nk>" + y + Close) == Open + y + Close
  {
    var front: string := "<thi";
    assert front + "nk>" == Open;
    AppendAssoc(front, "nk>" + y, Close);
    AppendAssoc(front, "nk>", y);
  }

  /**
   * One pass over `<thi<think>m</think>nk>y</think>` drops the inner span and
   * leaves `<think>y</think>`, assembled from the text on both sides of it.
   */
  lemma SpanJoinsNeighbours(m: string, y: string)
    requires '<' !in m && '<' !in y
    ensures DropSpans("<thi" + Open + m + Close + "nk>" + y + Close) == Open + y + Close
  {
    TagShapes();
    NoOccurrenceWithoutAngle(Close, m);
    var front: string := "<thi";
    var rest: string := "nk>" + y;
    assert NoOccurrence(Open, front);
    NoOccurrenceWithoutAngle(Open, rest);
    assert "<thi" + Open + m + Close + "nk>" + y + Close == front + Open + m + Close + (rest + Close);
    ThinkSpanRemoved(front, m, rest + Close);
    OpenFreePrefixKept(rest, Close);
    CloseAloneKept();
    PiecesRejoin(y);
  }

  /**
   * The stripper is not idempotent: removing one span can join the text
   * around it into a new complete span, which only a second pass removes.
   */
  lemma StripperNotIdempotent(m: string, y: string)
    requires '<' !in m && '<' !in y
    ensures RemoveThinkTags("<thi" + Open + m + Close + "nk>" + y + Close) == Open + y + Close
    ensures RemoveThinkTags(Open + y + Close) == ""
  {
    SpanJoinsNeighbours(m, y);
    TagShapes();
    assert Trimmed(Open + y + Close);
    NoOccurrenceWithoutAngle(Close, y);
    SpanDropped(y, []);
    assert Open + y + Close + [] == Open + y + Close;
  }
}
