/**
 * Whole-document text extraction: every page's text, in page order, joined by
 * a fixed page-break marker (app.py, extract_all_text).
 */
module Extraction {
  import opened Sequences

  /** The literal marker placed between two consecutive pages. */
  const PageBreak: string := "\n\n--- Page Break ---\n\n"

  /** Python's `sep.join(pages)`: the pages in order, one `sep` between each two. */
  function JoinWith(sep: string, pages: seq<string>): string
  {
    if |pages| == 0 then ""
    else if |pages| == 1 then pages[0]
    else JoinWith(sep, pages[..|pages| - 1]) + sep + pages[|pages| - 1]
  }

  /** Where page `i` starts in `sep.join(pages)`: every earlier page plus one `sep` after each. */
  function OffsetWith(sep: string, pages: seq<string>, i: nat): nat
    requires i <= |pages|
  {
    if i == 0 then 0 else OffsetWith(sep, pages, i - 1) + |pages[i - 1]| + |sep|
  }

  /**
   * The whole-document text: the pages joined by the page-break marker. No
   * pages give the empty text; otherwise the text is as long as every page
   * plus one marker for each gap, and holds nothing else (see JoinLayout).
   */
  function Join(pages: seq<string>): (r: string)
    ensures pages == [] ==> r == ""
    ensures pages != [] ==> |r| + |PageBreak| == Offset(pages, |pages|)
  {
    if pages == [] then JoinWith(PageBreak, pages)
    else
      JoinWithLength(PageBreak, pages);
      JoinWith(PageBreak, pages)
  }

  /** Where page `i` starts in the whole-document text. */
  function Offset(pages: seq<string>, i: nat): nat
    requires i <= |pages|
  {
    OffsetWith(PageBreak, pages, i)
  }

  /**
   * Collects each page's text into a list, in order, then joins the list with
   * the page-break marker.
   */
  method ExtractAllText(pages: seq<string>) returns (r: string)
    ensures r == Join(pages)
  {
    var text: seq<string> := [];
    for i := 0 to |pages|
      invariant text == pages[..i]
    {
      text := text + [pages[i]];
    }
    assert pages[..|pages|] == pages;
    r := Join(text);
  }

  lemma {:induction false} OffsetOfPrefix(sep: string, pages: seq<string>, k: nat, i: nat)
    requires i <= k <= |pages|
    ensures OffsetWith(sep, pages[..k], i) == OffsetWith(sep, pages, i)
  {
    if i > 0 {
      OffsetOfPrefix(sep, pages, k, i - 1);
    }
  }

  lemma {:induction false} JoinWithLength(sep: string, pages: seq<string>)
    requires |pages| >= 1
    ensures |JoinWith(sep, pages)| + |sep| == OffsetWith(sep, pages, |pages|)
  {
    var n := |pages|;
    if n >= 2 {
      JoinWithLength(sep, pages[..n - 1]);
      OffsetOfPrefix(sep, pages, n - 1, n - 1);
    }
  }

  /** Appending a page adds one `sep` and the page after the text so far. */
  lemma JoinWithStep(sep: string, pages: seq<string>)
    requires |pages| >= 2
    ensures JoinWith(sep, pages) == JoinWith(sep, pages[..|pages| - 1]) + (sep + pages[|pages| - 1])
    ensures OffsetWith(sep, pages, |pages| - 1) == |JoinWith(sep, pages[..|pages| - 1])| + |sep|
  {
    var n := |pages|;
    AppendAssoc(JoinWith(sep, pages[..n - 1]), sep, pages[n - 1]);
    JoinWithLength(sep, pages[..n - 1]);
    OffsetOfPrefix(sep, pages, n - 1, n - 1);
  }


  lemma {:induction false} JoinWithPage(sep: string, pages: seq<string>, i: nat)
    requires i < |pages|
    ensures OffsetWith(sep, pages, i) + |pages[i]| <= |JoinWith(sep, pages)|
    ensures JoinWith(sep, pages)[OffsetWith(sep, pages, i)..OffsetWith(sep, pages, i) + |pages[i]|] == pages[i]
  {
    var n := |pages|;
    if n == 1 {
      assert pages[0][0..|pages[0]|] == pages[0];
    } else {
      var init := pages[..n - 1];
      var j := JoinWith(sep, init);
      JoinWithStep(sep, pages);
      if i < n - 1 {
        JoinWithPage(sep, init, i);
        OffsetOfPrefix(sep, pages, n - 1, i);
        assert init[i] == pages[i];
        SliceKept(j, sep + pages[n - 1], OffsetWith(sep, pages, i), pages[i]);
      } else {
        LastSlice(j, sep, pages[i]);
      }
    }
  }

  /** A slice of `j` is still there once something is appended to `j`. */
  lemma SliceKept(j: string, tail: string, lo: nat, p: string)
    requires lo + |p| <= |j| && j[lo..lo + |p|] == p
    ensures lo + |p| <= |j + tail| && (j + tail)[lo..lo + |p|] == p
  {
    assert (j + tail)[lo..lo + |p|] == j[lo..lo + |p|];
  }

  /** The last operand of `j + (sep + p)` is found right after `j` and `sep`. */
  lemma LastSlice(j: string, sep: string, p: string)
    ensures (j + (sep + p))[|j| + |sep|..|j| + |sep| + |p|] == p
  {
    var w := j + (sep + p);
    assert forall k :: 0 <= k < |p| ==> w[|j| + |sep| + k] == p[k];
  }

  lemma {:induction false} JoinWithMarker(sep: string, pages: seq<string>, i: nat)
    requires i + 1 < |pages|
    ensures OffsetWith(sep, pages, i + 1) <= |JoinWith(sep, pages)|
    ensures JoinWith(sep, pages)[OffsetWith(sep, pages, i) + |pages[i]|..OffsetWith(sep, pages, i + 1)] == sep
  {
    var n := |pages|;
    var init := pages[..n - 1];
    var j := JoinWith(sep, init);
    JoinWithStep(sep, pages);
    OffsetOfPrefix(sep, pages, n - 1, i);
    assert init[i] == pages[i];
    var lo := OffsetWith(sep, pages, i) + |pages[i]|;
    assert OffsetWith(sep, pages, i + 1) == lo + |sep|;
    if i + 1 < n - 1 {
      JoinWithMarker(sep, init, i);
      OffsetOfPrefix(sep, pages, n - 1, i + 1);
      SliceKept(j, sep + pages[n - 1], lo, sep);
    } else {
      JoinWithLength(sep, init);
      assert lo == |j|;
      SliceKept(sep, pages[n - 1], 0, sep);
      assert (j + (sep + pages[n - 1]))[lo..lo + |sep|] == (sep + pages[n - 1])[0..|sep|];
    }
  }

  /**
   * Page `i` appears, unchanged, at `Offset(pages, i)`, and exactly one
   * marker follows it when another page comes after it. With Join's length
   * this says the result is page 0, marker, page 1, ..., marker, page N-1.
   */
  lemma JoinLayout(pages: seq<string>, i: nat)
    requires i < |pages|
    ensures Offset(pages, i) + |pages[i]| <= |Join(pages)|
    ensures Join(pages)[Offset(pages, i)..Offset(pages, i) + |pages[i]|] == pages[i]
    ensures i + 1 < |pages| ==>
              Offset(pages, i + 1) <= |Join(pages)| &&
              Join(pages)[Offset(pages, i) + |pages[i]|..Offset(pages, i + 1)] == PageBreak
  {
    JoinWithPage(PageBreak, pages, i);
    if i + 1 < |pages| {
      JoinWithMarker(PageBreak, pages, i);
    }
  }

  /** No pages give the empty text; two pages give the first, one marker, the second. */
  lemma JoinSmallCases(a: string, b: string)
    ensures Join([]) == ""
    ensures Join([a]) == a
    ensures Join([a, b]) == a + PageBreak + b
  {
    assert [a, b][..1] == [a];
  }

  /**
   * The marker is not escaped: a single page whose text contains the marker
   * joins to the same text as two pages, so the joined text cannot always be
   * split back into its pages.
   */
  lemma PageBreakNotEscaped(a: string, b: string)
    ensures Join([a + PageBreak + b]) == Join([a, b])
  {
    JoinSmallCases(a, b);
    JoinSmallCases(a + PageBreak + b, b);
  }
}
