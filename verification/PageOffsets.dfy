/**
 Joining a document's pages into one text while recording where each page begins, and resolving an
 offset in that text back to its page.
 */
module PageOffsets {
  import opened Strings

  function WithoutNul(text: string): (r: string)
    ensures |r| == |text| && forall i :: 0 <= i < |r| ==> r[i] == if text[i] == '\0' then ' ' else text[i]
  {
    seq(|text|, i requires 0 <= i < |text| => if text[i] == '\0' then ' ' else text[i])
  }

  /** The pages with one newline between neighbours. */
  function JoinPages(pages: seq<string>): string {
    if pages == [] then ""
    else if |pages| == 1 then pages[0]
    else JoinPages(pages[..|pages| - 1]) + ("\n" + pages[|pages| - 1])
  }

  /** Where page k begins: after every earlier page and its newline. */
  function StartOf(pages: seq<string>, k: nat): nat
    requires k <= |pages|
  {
    if k == 0 then 0 else StartOf(pages, k - 1) + |pages[k - 1]| + 1
  }

  datatype ExtractedText = ExtractedText(text: string, pageStarts: seq<nat>)

  /** How many leading starts lie at or before the offset. */
  function BisectRight(starts: seq<nat>, offset: nat): (r: nat)
    ensures r <= |starts| && (forall i :: 0 <= i < r ==> starts[i] <= offset) && (r < |starts| ==> offset < starts[r])
  {
    if starts == [] || offset < starts[0] then 0
    else
      assert forall i :: 0 < i < |starts| ==> starts[i] == starts[1..][i - 1];
      1 + BisectRight(starts[1..], offset)
  }

  /** The 1-based page, or None for a document without pages. */
  function PageOf(document: ExtractedText, offset: nat): Option<nat> {
    if document.pageStarts == [] then None else Some(BisectRight(document.pageStarts, offset))
  }

  /** Appends each page and records the offset it begins at. */
  method DecodePages(pages: seq<string>) returns (decoded: ExtractedText)
    ensures decoded.text == JoinPages(pages)
    ensures |decoded.pageStarts| == |pages| && forall k :: 0 <= k < |pages| ==>
        decoded.pageStarts[k] == StartOf(pages, k)
  {
    var parts: seq<string> := [];
    var starts: seq<nat> := [];
    var offset := 0;
    for number := 0 to |pages|
      invariant parts == pages[..number] && |starts| == number && offset == StartOf(pages, number)
      invariant forall k :: 0 <= k < number ==> starts[k] == StartOf(pages, k)
    {
      var part := pages[number];
      starts := starts + [offset];
      parts := parts + [part];
      offset := offset + |part| + 1;
    }
    assert parts == pages;
    decoded := ExtractedText(JoinPages(parts), starts);
  }

  /** NUL becomes a space after decoding, which shifts no page. */
  method Extract(pages: seq<string>) returns (extracted: ExtractedText)
    ensures extracted.text == WithoutNul(JoinPages(pages))
    ensures |extracted.pageStarts| == |pages| && forall k :: 0 <= k < |pages| ==>
        extracted.pageStarts[k] == StartOf(pages, k)
  {
    var decoded := DecodePages(pages);
    extracted := decoded.(text := WithoutNul(decoded.text));
  }

  lemma {:induction false} StartsIncrease(pages: seq<string>, j: nat, k: nat)
    requires j < k <= |pages|
    ensures StartOf(pages, j) + |pages[j]| < StartOf(pages, k)
  {
    if j == k - 1 {
    } else {
      StartsIncrease(pages, j, k - 1);
    }
  }

  lemma {:induction false} StartsOfPrefix(pages: seq<string>, n: nat, k: nat)
    requires k <= n <= |pages|
    ensures StartOf(pages[..n], k) == StartOf(pages, k)
  {
    if k == 0 {
    } else {
      StartsOfPrefix(pages, n, k - 1);
    }
  }

  lemma EarlierSits(text: string, page: string, from: nat, until: nat)
    requires from <= until <= |text|
    ensures var all := text + ("\n" + page);
      all[from..until] == text[from..until] && (until < |text| ==> all[until] == text[until]) && all[|text|] == '\n'
  {
  }

  lemma LastSits(text: string, page: string)
    ensures var all := text + ("\n" + page); all[|text| + 1..|text| + 1 + |page|] == page
  {
  }

  /** The joined text ends where one more page would begin, less the newline. */
  lemma {:induction false} PageSits(pages: seq<string>, k: nat)
    requires k < |pages|
    ensures var text := JoinPages(pages);
      && |text| + 1 == StartOf(pages, |pages|)
      && StartOf(pages, k) + |pages[k]| <= |text|
      && text[StartOf(pages, k)..StartOf(pages, k) + |pages[k]|] == pages[k]
      && (k + 1 < |pages| ==> StartOf(pages, k) + |pages[k]| < |text| && text[StartOf(pages, k) + |pages[k]|] == '\n')
    decreases |pages|
  {
    var n := |pages| - 1;
    var init := pages[..n];
    if n == 0 {
    } else {
      PageSits(init, if k < n then k else 0);
      StartsOfPrefix(pages, n, n);
      StartsOfPrefix(pages, n, k);
      hide StartOf;
      var start := StartOf(pages, k);
      if k < n {
        StartsIncrease(pages, k, n);
        EarlierSits(JoinPages(init), pages[n], start, start + |pages[k]|);
      } else {
        LastSits(JoinPages(init), pages[n]);
      }
    }
  }

  /** An offset inside page k, or at its closing newline, resolves to it. */
  lemma BisectFindsPage(pages: seq<string>, starts: seq<nat>, k: nat, j: nat)
    requires |starts| == |pages| && forall i :: 0 <= i < |pages| ==> starts[i] == StartOf(pages, i)
    requires k < |pages| && j <= |pages[k]|
    ensures BisectRight(starts, starts[k] + j) == k + 1
  {
    hide StartOf;
    var r := BisectRight(starts, starts[k] + j);
    if r <= k {
      StartsNotAfter(pages, r, k);
    }
    if k + 1 < |pages| {
      StartsIncrease(pages, k, k + 1);
      assert starts[k] + j < starts[k + 1];
    }
  }

  lemma CharOfSlice(text: string, from: nat, page: string, j: nat)
    requires from + |page| <= |text| && text[from..from + |page|] == page && j < |page|
    ensures text[from + j] == page[j]
  {
  }

  lemma CharSits(pages: seq<string>, k: nat, j: nat)
    requires k < |pages| && j < |pages[k]|
    ensures StartOf(pages, k) + j < |JoinPages(pages)| && JoinPages(pages)[StartOf(pages, k) + j] == pages[k][j]
  {
    hide JoinPages, StartOf;
    PageSits(pages, k);
    CharOfSlice(JoinPages(pages), StartOf(pages, k), pages[k], j);
  }

  /** Every character of every page sits at its page's start plus its place in the page, with NUL
      read as a space, and its offset resolves to that page; so do a page's closing newline and an
      empty page's own offset. */
  lemma OffsetsResolve(pages: seq<string>, extracted: ExtractedText, k: nat, j: nat)
    requires extracted.text == WithoutNul(JoinPages(pages))
    requires |extracted.pageStarts| == |pages| && forall i :: 0 <= i < |pages| ==>
        extracted.pageStarts[i] == StartOf(pages, i)
    requires k < |pages| && j <= |pages[k]|
    ensures extracted.pageStarts[0] == 0
    ensures PageOf(extracted, extracted.pageStarts[k] + j) == Some(k + 1)
    ensures j < |pages[k]| ==>
      extracted.pageStarts[k] + j < |extracted.text|
          && extracted.text[extracted.pageStarts[k] + j] == WithoutNul(pages[k])[j]
  {
    assert StartOf(pages, 0) == 0;
    hide JoinPages, BisectRight, WithoutNul, StartOf;
    BisectFindsPage(pages, extracted.pageStarts, k, j);
    if j < |pages[k]| {
      CharSits(pages, k, j);
    }
  }

  lemma StartsNotAfter(pages: seq<string>, j: nat, k: nat)
    requires j <= k <= |pages|
    ensures StartOf(pages, j) <= StartOf(pages, k)
  {
  }
}
