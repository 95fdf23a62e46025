/** The one value transformation of the fetcher: an inventory item id arrives as a
    slash-delimited resource path (`gid://shopify/InventoryItem/12345`) and only the
    text after its last '/' is stored, as Python's `url.split('/')[-1]` does. */
module PathSegment {

  /** `tail` is the part of `s` after its last '/', or the whole of `s` when `s` has no '/':
      a suffix of `s` without '/' that starts either at the beginning of `s` or right
      after a '/'. */
  ghost predicate AfterLastSlash(s: string, tail: string)
  {
    && |tail| <= |s|
    && tail == s[|s| - |tail|..]
    && '/' !in tail
    && (|tail| == |s| || s[|s| - |tail| - 1] == '/')
  }

  /** The text after the last '/' of `s`, scanning back from the end. */
  function LastSegment(s: string): string
    decreases |s|
  {
    if s == [] then []
    else if s[|s| - 1] == '/' then []
    else LastSegment(s[..|s| - 1]) + [s[|s| - 1]]
  }

  /** LastSegment keeps exactly the text after the last '/'. */
  lemma {:induction false} LastSegmentAfterLastSlash(s: string)
    ensures AfterLastSlash(s, LastSegment(s))
    decreases |s|
  {
    if s != [] && s[|s| - 1] != '/' {
      var init := s[..|s| - 1];
      LastSegmentAfterLastSlash(init);
      assert s == init + [s[|s| - 1]];
    }
  }

  /** Any suffix of `s` longer than the part after the last '/' contains that '/'. */
  lemma SlashBeforeTail(s: string, tail: string, t: string)
    requires AfterLastSlash(s, tail)
    requires |t| <= |s| && t == s[|s| - |t|..]
    ensures |tail| < |t| ==> '/' in t
  {
    if |tail| < |t| {
      assert t[|t| - |tail| - 1] == s[|s| - |tail| - 1];
    }
  }

  /** AfterLastSlash pins its second argument down: there is exactly one such suffix. */
  lemma AfterLastSlashUnique(s: string, t1: string, t2: string)
    requires AfterLastSlash(s, t1) && AfterLastSlash(s, t2)
    ensures t1 == t2
  {
    SlashBeforeTail(s, t1, t2);
    SlashBeforeTail(s, t2, t1);
  }

  /** A path without '/' is kept whole. */
  lemma NoSlashKeepsAll(s: string)
    requires '/' !in s
    ensures LastSegment(s) == s
  {
    LastSegmentAfterLastSlash(s);
    SlashBeforeTail(s, LastSegment(s), s);
  }

  /** A path ending in '/' yields the empty id. */
  lemma TrailingSlashGivesEmpty(s: string)
    requires |s| > 0 && s[|s| - 1] == '/'
    ensures LastSegment(s) == ""
  {
    LastSegmentAfterLastSlash(s);
  }

  /** An example: the numeric tail of a global id. */
  lemma GlobalIdExample()
    ensures LastSegment("gid://shop/InventoryItem/987") == "987"
  {
    var s := "gid://shop/InventoryItem/987";
    assert s[|s| - 3..] == "987";
    assert AfterLastSlash(s, "987");
    LastSegmentAfterLastSlash(s);
    AfterLastSlashUnique(s, LastSegment(s), "987");
  }

  // ---------------------------------------------------------------------------
  // Python's str.split('/') as an independent reference definition

  /** The pieces joined back together with '/' between them. */
  function Join(parts: seq<string>): (s: string)
    requires |parts| > 0
  {
    if |parts| == 1 then parts[0] else parts[0] + "/" + Join(parts[1..])
  }

  /** `s.split('/')`: the maximal '/'-free pieces of `s`, in order; an empty string
      and every '/' at either end or next to another '/' give empty pieces. */
  function Split(s: string): (parts: seq<string>)
    ensures |parts| > 0
    ensures forall i | 0 <= i < |parts| :: '/' !in parts[i]
    ensures Join(parts) == s
  {
    if s == [] then [[]]
    else
      var rest := Split(s[1..]);
      if s[0] == '/' then
        assert ([[]] + rest)[1..] == rest;
        [[]] + rest
      else
        var parts := [[s[0]] + rest[0]] + rest[1..];
        assert |rest| > 1 ==> Join(rest) == rest[0] + "/" + Join(rest[1..]);
        assert |parts| > 1 ==> parts[1..] == rest[1..];
        parts
  }

  /** The last piece of a join is the text after its last '/'. */
  lemma {:induction false} LastOfJoin(parts: seq<string>)
    requires |parts| > 0
    requires forall i | 0 <= i < |parts| :: '/' !in parts[i]
    ensures AfterLastSlash(Join(parts), parts[|parts| - 1])
  {
    if |parts| > 1 {
      var rest := parts[1..];
      LastOfJoin(rest);
      var j, last := Join(rest), parts[|parts| - 1];
      var s := Join(parts);
      assert s == (parts[0] + "/") + j;
      assert last == rest[|rest| - 1];
      assert s[|s| - |j|..] == j;
      assert s[|s| - |last|..] == j[|j| - |last|..];
      if |last| == |j| {
        assert s[|s| - |last| - 1] == '/';
      } else {
        assert s[|s| - |last| - 1] == j[|j| - |last| - 1];
      }
    }
  }

  /** The stored id is exactly what `split('/')[-1]` yields. */
  lemma LastSegmentIsLastPiece(s: string)
    ensures LastSegment(s) == Split(s)[|Split(s)| - 1]
  {
    var parts := Split(s);
    var last := parts[|parts| - 1];
    LastOfJoin(parts);
    assert AfterLastSlash(s, last);
    LastSegmentAfterLastSlash(s);
    AfterLastSlashUnique(s, LastSegment(s), last);
  }
}
