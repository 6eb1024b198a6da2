/** Python list slicing `s[start:stop]` and the page arithmetic of the search helpers. */
module PySlice {

  function Min(a: int, b: int): int
  {
    if a <= b then a else b
  }

  /** How Python normalises one slice bound against a list of length `n`:
      a negative bound counts from the end, and the result is clamped to `[0, n]`. */
  function Bound(i: int, n: nat): (r: nat)
    ensures r <= n
  {
    if i < 0 then (if i + n < 0 then 0 else i + n)
    else if i > n then n
    else i
  }

  /** `s[start:stop]` with step 1, as Python evaluates it for any integer bounds. */
  function Slice<T>(s: seq<T>, start: int, stop: int): (r: seq<T>)
    ensures |r| <= |s|
    ensures 0 <= start <= stop <= |s| ==> r == s[start..stop]
    ensures stop <= start && (start >= 0) == (stop >= 0) ==> r == []
  {
    var lo, hi := Bound(start, |s|), Bound(stop, |s|);
    if lo <= hi then s[lo..hi] else []
  }

  /** The offset of a 1-based page: `(page - 1) * size`. */
  function Offset(page: int, size: int): int
  {
    (page - 1) * size
  }

  /** `s[(page-1)*size : (page-1)*size + size]`, the in-memory pagination used throughout. */
  function Page<T>(s: seq<T>, page: int, size: int): seq<T>
  {
    Slice(s, Offset(page, size), Offset(page, size) + size)
  }

  /** Pages 1 to k, concatenated in order. */
  function Pages<T>(s: seq<T>, k: nat, size: int): seq<T>
  {
    if k == 0 then [] else Pages(s, k - 1, size) + Page(s, k, size)
  }

  /** For a page number of at least 1 and a non-negative size, the page holds at most `size`
      elements, exactly the ones of `s` from the offset on, and nothing past the end. */
  lemma PageShape<T>(s: seq<T>, page: int, size: int)
    requires page >= 1 && size >= 0
    ensures Offset(page, size) >= 0
    ensures |Page(s, page, size)| == if Offset(page, size) >= |s| then 0 else Min(size, |s| - Offset(page, size))
    ensures forall i :: 0 <= i < |Page(s, page, size)| ==> Page(s, page, size)[i] == s[Offset(page, size) + i]
  {
    var off := Offset(page, size);
    assert off >= 0 by { MulNonNegative(page - 1, size); }
  }

  /** `p` holds at most `size` elements and its i-th one is element `(page-1)*size + i` of `s`. */
  ghost predicate IsPageOf<T>(p: seq<T>, s: seq<T>, page: int, size: int)
  {
    && |p| <= size
    && forall i :: 0 <= i < |p| ==> 0 <= Offset(page, size) + i < |s| && p[i] == s[Offset(page, size) + i]
  }

  lemma PageAt<T>(s: seq<T>, page: int, size: int)
    requires page >= 1 && size >= 0
    ensures IsPageOf(Page(s, page, size), s, page, size)
  {
    PageShape(s, page, size);
  }

  lemma MulNonNegative(a: int, b: int)
    requires a >= 0 && b >= 0
    ensures a * b >= 0
  {
  }

  /** Concatenating the first k pages gives the first `min(k * size, |s|)` elements: no element
      is repeated and none is skipped. */
  lemma {:induction false} PagesPrefix<T>(s: seq<T>, k: nat, size: int)
    requires size >= 0
    ensures k * size >= 0
    ensures Pages(s, k, size) == s[..Min(k * size, |s|)]
  {
    MulNonNegative(k, size);
    if k > 0 {
      PagesPrefix(s, k - 1, size);
      MulSucc(k, size);
      PagesStep(s, k, size, (k - 1) * size, k * size);
    }
  }

  lemma MulSucc(k: int, size: int)
    ensures k * size == (k - 1) * size + size
  {
  }

  /** One more page extends the prefix by the next `size` elements, or up to the end. */
  lemma PagesStep<T>(s: seq<T>, k: nat, size: int, a: int, b: int)
    requires k >= 1 && size >= 0 && a >= 0
    requires a == (k - 1) * size && b == a + size
    requires Pages(s, k - 1, size) == s[..Min(a, |s|)]
    ensures Pages(s, k, size) == s[..Min(b, |s|)]
  {
    var lo, hi := Min(a, |s|), Min(b, |s|);
    PageIsRange(s, k, size, lo, hi);
    assert s[..lo] + s[lo..hi] == s[..hi];
  }

  lemma PageIsRange<T>(s: seq<T>, k: int, size: int, lo: int, hi: int)
    requires k >= 1 && size >= 0
    requires lo == Min((k - 1) * size, |s|) && hi == Min((k - 1) * size + size, |s|)
    ensures 0 <= lo <= hi <= |s| && Page(s, k, size) == s[lo..hi]
  {
    MulNonNegative(k - 1, size);
    assert Offset(k, size) == (k - 1) * size;
  }

  /** `f(1) + f(2) + ... + f(k)`: the pages an answer function gives, concatenated. */
  ghost function Concat<T>(f: nat -> seq<T>, k: nat): seq<T>
  {
    if k == 0 then [] else Concat(f, k - 1) + f(k)
  }

  /** A function whose every page is the corresponding page of `s` concatenates like `s`'s pages. */
  lemma {:induction false} ConcatPages<T>(f: nat -> seq<T>, s: seq<T>, k: nat, size: int)
    requires forall p: nat :: 1 <= p <= k ==> f(p) == Page(s, p, size)
    ensures Concat(f, k) == Pages(s, k, size)
  {
    if k > 0 {
      ConcatPages(f, s, k - 1, size);
    }
  }

  /** A first page at least as large as the list is the whole list. */
  lemma FirstPageWhole<T>(s: seq<T>, size: int)
    requires size >= |s|
    ensures Page(s, 1, size) == s
  {
    assert Offset(1, size) == 0;
  }

  /** Once the pages reach past the end, their concatenation is the whole list. */
  lemma PagesCover<T>(s: seq<T>, k: nat, size: int)
    requires size >= 0 && k * size >= |s|
    ensures Pages(s, k, size) == s
  {
    PagesPrefix(s, k, size);
  }
}
