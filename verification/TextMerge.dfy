/** Merging pieces into chunks: a sliding window with a running total. */
module TextMerge {
  import opened TextPieces

  function Join(parts: seq<string>, separator: string): string {
    if parts == [] then ""
    else if |parts| == 1 then parts[0]
    else parts[0] + separator + Join(parts[1..], separator)
  }

  /** When every match reads as the separator, the parts joined by it are the text. */
  lemma {:induction false} WeavingIsJoining(parts: seq<string>, text: string, matches: seq<Span>, separator: string)
    requires |parts| == |matches| + 1 && Within(matches, |text|)
    requires forall m :: m in matches ==> text[m.0..m.1] == separator
    ensures Weave(parts, text, matches) == Join(parts, separator)
  {
    if matches != [] {
      WeavingIsJoining(parts[1..], text, matches[1..], separator);
      assert matches[0] in matches;
    }
  }

  /** The running total of a window: its pieces' lengths and one separator length between neighbours. */
  function Total(length: string -> nat, parts: seq<string>, separator: string): nat {
    if parts == [] then 0
    else if |parts| == 1 then length(parts[0])
    else length(parts[0]) + length(separator) + Total(length, parts[1..], separator)
  }

  lemma {:induction false} TotalAppend(length: string -> nat, parts: seq<string>, part: string, separator: string)
    ensures Total(length, parts + [part], separator)
            == Total(length, parts, separator) + length(part) + (if parts == [] then 0 else length(separator))
  {
    if |parts| > 0 {
      TotalAppend(length, parts[1..], part, separator);
      assert (parts + [part])[1..] == parts[1..] + [part];
    } else {
      assert parts + [part] == [part];
    }
  }

  /** Under an additive measure the running total is the length of the joined window. */
  lemma {:induction false} TotalIsJoinedLength(cfg: Config, parts: seq<string>, separator: string)
    requires cfg.Additive()
    ensures Total(cfg.length, parts, separator) == cfg.length(Join(parts, separator))
  {
    if parts == [] {
      assert cfg.length("" + "") == cfg.length("") + cfg.length("");
      assert "" + "" == "";
    } else if |parts| > 1 {
      TotalIsJoinedLength(cfg, parts[1..], separator);
    }
  }

  // ----- windows -----

  /** Whether the window [lo, hi) can take piece hi as well. */
  predicate Fits(cfg: Config, splits: seq<string>, separator: string, lo: nat, hi: nat)
    requires lo <= hi < |splits|
  {
    Total(cfg.length, splits[lo..hi], separator) + cfg.length(splits[hi]) + (if lo < hi then cfg.length(separator) else 0)
    <= cfg.chunkSize
  }

  /** Whether the tail [lo, hi) of an emitted window must still shrink before piece hi is added. */
  predicate MustShrink(cfg: Config, splits: seq<string>, separator: string, lo: nat, hi: nat)
    requires lo <= hi < |splits|
  {
    var total := Total(cfg.length, splits[lo..hi], separator);
    total > cfg.chunkOverlap || (!Fits(cfg, splits, separator, lo, hi) && total > 0)
  }

  /** v is the window that follows w: w was full, v starts at w's longest allowed tail and is extended while pieces fit. */
  ghost predicate Follows(cfg: Config, splits: seq<string>, separator: string, w: Span, v: Span) {
    && w.0 < w.1 < v.1 <= |splits| && w.0 <= v.0 <= w.1
    && !Fits(cfg, splits, separator, w.0, w.1)
    && !MustShrink(cfg, splits, separator, v.0, w.1)
    && (forall lo :: w.0 <= lo < v.0 ==> MustShrink(cfg, splits, separator, lo, w.1))
    && (forall hi :: w.1 < hi < v.1 ==> Fits(cfg, splits, separator, v.0, hi))
  }

  /** The windows over the first n pieces; the last one is still open. */
  ghost predicate Windows(cfg: Config, splits: seq<string>, separator: string, windows: seq<Span>, n: nat) {
    && n <= |splits|
    && (n == 0 ==> windows == [])
    && (n > 0 ==>
          && windows != [] && windows[0].0 == 0 < windows[0].1 && windows[|windows| - 1].1 == n
          && (forall hi :: 0 < hi < windows[0].1 && hi < |splits| ==> Fits(cfg, splits, separator, 0, hi)))
    && (forall k :: 0 <= k < |windows| - 1 ==> Follows(cfg, splits, separator, windows[k], windows[k + 1]))
  }

  ghost predicate InBounds(windows: seq<Span>, n: nat) {
    forall k :: 0 <= k < |windows| ==> windows[k].0 < windows[k].1 <= n
  }

  /** The chunks of the windows: joined, trimmed, and left out when empty. */
  function Emit(cfg: Config, splits: seq<string>, separator: string, windows: seq<Span>): seq<string>
    requires InBounds(windows, |splits|)
  {
    if windows == [] then []
    else
      var last := windows[|windows| - 1];
      var doc := cfg.trim(Join(splits[last.0..last.1], separator));
      Emit(cfg, splits, separator, windows[..|windows| - 1]) + (if doc != "" then [doc] else [])
  }

  lemma {:induction false} WindowsInBounds(cfg: Config, splits: seq<string>, separator: string, windows: seq<Span>, n: nat)
    requires Windows(cfg, splits, separator, windows, n)
    ensures InBounds(windows, n)
    ensures forall k :: 0 <= k < |windows| - 1 ==> windows[k].1 < windows[k + 1].1
  {
    if |windows| > 1 {
      var m := windows[|windows| - 2];
      assert Follows(cfg, splits, separator, m, windows[|windows| - 1]);
      WindowsInBounds(cfg, splits, separator, windows[..|windows| - 1], m.1);
      forall k | 0 <= k < |windows|
        ensures windows[k].0 < windows[k].1 <= n
      {
        if k < |windows| - 1 {
          assert windows[k] == windows[..|windows| - 1][k];
        }
      }
      forall k | 0 <= k < |windows| - 1
        ensures windows[k].1 < windows[k + 1].1
      {
        assert Follows(cfg, splits, separator, windows[k], windows[k + 1]);
      }
    }
  }

  /** Piece n fits the open window. */
  lemma ExtendWindow(cfg: Config, splits: seq<string>, separator: string, windows: seq<Span>, n: nat)
    requires Windows(cfg, splits, separator, windows, n) && 0 < n < |splits|
    requires windows[|windows| - 1].0 < n
    requires Fits(cfg, splits, separator, windows[|windows| - 1].0, n)
    ensures Windows(cfg, splits, separator, windows[|windows| - 1 := (windows[|windows| - 1].0, n + 1)], n + 1)
  {
    var last := |windows| - 1;
    var extended := windows[last := (windows[last].0, n + 1)];
    forall k | 0 <= k < |extended| - 1
      ensures Follows(cfg, splits, separator, extended[k], extended[k + 1])
    {
      assert Follows(cfg, splits, separator, windows[k], windows[k + 1]);
    }
  }

  lemma ExtendOpen(cfg: Config, splits: seq<string>, separator: string, done: seq<Span>, lo: nat, n: nat)
    requires Windows(cfg, splits, separator, done + [(lo, n)], n) && lo < n < |splits| && Fits(cfg, splits, separator, lo, n)
    ensures Windows(cfg, splits, separator, done + [(lo, n + 1)], n + 1)
  {
    hide Windows, Fits;
    var windows := done + [(lo, n)];
    assert windows[|windows| - 1] == (lo, n) && windows[|windows| - 1 := (lo, n + 1)] == done + [(lo, n + 1)];
    ExtendWindow(cfg, splits, separator, windows, n);
  }

  /** Piece n does not: the open window is emitted and the next one opens at lo. */
  lemma OpenWindow(cfg: Config, splits: seq<string>, separator: string, windows: seq<Span>, n: nat, lo: nat)
    requires Windows(cfg, splits, separator, windows, n) && 0 < n < |splits|
    requires windows[|windows| - 1].0 < n && !Fits(cfg, splits, separator, windows[|windows| - 1].0, n)
    requires windows[|windows| - 1].0 <= lo <= n && !MustShrink(cfg, splits, separator, lo, n)
    requires forall l :: windows[|windows| - 1].0 <= l < lo ==> MustShrink(cfg, splits, separator, l, n)
    ensures Windows(cfg, splits, separator, windows + [(lo, n + 1)], n + 1)
  {
    var opened_ := windows + [(lo, n + 1)];
    forall k | 0 <= k < |opened_| - 1
      ensures Follows(cfg, splits, separator, opened_[k], opened_[k + 1])
    {
      if k < |windows| - 1 {
        assert Follows(cfg, splits, separator, windows[k], windows[k + 1]);
      }
    }
  }

  /** Drop pieces from the front of an emitted window until its tail may be carried over. */
  method ShrinkWindow(cfg: Config, ghost splits: seq<string>, separator: string, window: seq<string>, windowTotal: nat, length: nat,
                      ghost w: nat, ghost i: nat) returns (current: seq<string>, total: nat, ghost lo: nat)
    requires 0 <= cfg.chunkOverlap && w <= i < |splits| && window == splits[w..i]
    requires windowTotal == Total(cfg.length, window, separator) && length == cfg.length(splits[i])
    ensures w <= lo <= i && current == splits[lo..i] && total == Total(cfg.length, current, separator)
    ensures !MustShrink(cfg, splits, separator, lo, i)
    ensures forall l :: w <= l < lo ==> MustShrink(cfg, splits, separator, l, i)
  {
    var separatorLen := cfg.length(separator);
    current, total, lo := window, windowTotal, w;
    while total > cfg.chunkOverlap
          || (total + length + (if |current| > 0 then separatorLen else 0) > cfg.chunkSize && total > 0)
      invariant w <= lo <= i && current == splits[lo..i]
      invariant total == Total(cfg.length, current, separator)
      invariant forall l :: w <= l < lo ==> MustShrink(cfg, splits, separator, l, i)
      decreases |current|
    {
      assert current[1..] == splits[lo + 1..i];
      total := total - cfg.length(current[0]);
      if |current| > 1 {
        total := total - separatorLen;
      }
      current := current[1..];
      lo := lo + 1;
    }
  }

  lemma EmitAppend(cfg: Config, splits: seq<string>, separator: string, windows: seq<Span>, w: Span)
    requires InBounds(windows, |splits|) && w.0 < w.1 <= |splits|
    ensures InBounds(windows + [w], |splits|)
    ensures var doc := cfg.trim(Join(splits[w.0..w.1], separator));
            Emit(cfg, splits, separator, windows + [w]) == Emit(cfg, splits, separator, windows) + if doc != "" then [doc] else []
  {
    assert (windows + [w])[..|windows|] == windows;
  }

  /**
   windows is a ghost account of which pieces each chunk joins; it is determined by the splits, the
   sizes and the measure, so the chunks are too: they are those of any account that meets the definition.
   */
  method MergeSplits(cfg: Config, splits: seq<string>, separator: string) returns (docs: seq<string>, ghost windows: seq<Span>)
    requires 0 <= cfg.chunkOverlap && 0 < cfg.chunkSize && cfg.trim("") == ""
    ensures Windows(cfg, splits, separator, windows, |splits|) && InBounds(windows, |splits|)
    ensures docs == Emit(cfg, splits, separator, windows)
    ensures forall ws :: Windows(cfg, splits, separator, ws, |splits|) ==>
              InBounds(ws, |splits|) && docs == Emit(cfg, splits, separator, ws)
  {
    hide Windows, Emit, Join, MustShrink;
    var separatorLen := cfg.length(separator);
    docs := [];
    ghost var done: seq<Span> := [];   // the emitted windows
    ghost var lo := 0;                 // where the open one starts
    var current: seq<string> := [];
    var total := 0;
    NoWindows(cfg, splits, separator);
    for i := 0 to |splits|
      invariant 0 <= lo <= i && current == splits[lo..i] && (i == 0 ==> done == [] && lo == 0) && (i > 0 ==> lo < i)
      invariant total == Total(cfg.length, current, separator)
      invariant i > 0 ==> Windows(cfg, splits, separator, done + [(lo, i)], i)
      invariant InBounds(done, |splits|) && docs == Emit(cfg, splits, separator, done)
    {
      var split := splits[i];
      var length := cfg.length(split);
      if i == 0 {
        FirstWindow(cfg, splits, separator);
      } else if total + length + (if |current| > 0 then separatorLen else 0) > cfg.chunkSize && |current| > 0 {
        var doc := cfg.trim(Join(current, separator));
        if doc != "" {
          docs := docs + [doc];
        }
        ghost var w := lo;
        EmitAppend(cfg, splits, separator, done, (w, i));
        current, total, lo := ShrinkWindow(cfg, splits, separator, current, total, length, w, i);
        OpenWindow(cfg, splits, separator, done + [(w, i)], i, lo);
        done := done + [(w, i)];
      } else {
        ExtendOpen(cfg, splits, separator, done, lo, i);
      }
      TotalAppend(cfg.length, current, split, separator);
      SliceGrows(splits, lo, i);
      current := current + [split];
      total := total + length;
      if |current| > 1 {
        total := total + separatorLen;
      }
    }
    var doc := cfg.trim(Join(current, separator));
    if doc != "" {
      docs := docs + [doc];
    }
    if splits == [] {
      windows := [];
      JoinNothing(separator);
    } else {
      EmitAppend(cfg, splits, separator, done, (lo, |splits|));
      windows := done + [(lo, |splits|)];
    }
    forall ws | Windows(cfg, splits, separator, ws, |splits|)
      ensures InBounds(ws, |splits|) && docs == Emit(cfg, splits, separator, ws)
    {
      WindowsAreDetermined(cfg, splits, separator, windows, ws);
    }
  }

  lemma SliceGrows(splits: seq<string>, lo: nat, i: nat)
    requires lo <= i < |splits|
    ensures splits[lo..i] + [splits[i]] == splits[lo..i + 1]
  {
  }

  lemma JoinNothing(separator: string)
    ensures Join([], separator) == ""
  {
  }

  lemma NoWindows(cfg: Config, splits: seq<string>, separator: string)
    ensures Windows(cfg, splits, separator, [], 0) && InBounds([], |splits|)
    ensures Emit(cfg, splits, separator, []) == []
  {
  }

  lemma FirstWindow(cfg: Config, splits: seq<string>, separator: string)
    requires splits != []
    ensures Windows(cfg, splits, separator, [] + [(0, 1)], 1)
  {
  }

  // ----- what the windows are good for -----

  /** Two windows that both start at lo and end where their successor could not grow end at the same place. */
  lemma SameEnd(cfg: Config, splits: seq<string>, separator: string, vs: seq<Span>, ws: seq<Span>, k: nat, from: nat)
    requires Windows(cfg, splits, separator, vs, |splits|) && Windows(cfg, splits, separator, ws, |splits|)
    requires k < |vs| && k < |ws| && vs[k].0 == ws[k].0 && from < vs[k].1
    requires forall hi :: from < hi < vs[k].1 && hi < |splits| && vs[k].0 <= hi ==> Fits(cfg, splits, separator, vs[k].0, hi)
    requires from < ws[k].1 && vs[k].0 <= from
    ensures vs[k].1 <= ws[k].1
  {
    WindowsInBounds(cfg, splits, separator, vs, |splits|);
    assert k + 1 < |ws| ==> Follows(cfg, splits, separator, ws[k], ws[k + 1]);
  }

  /** The first k + 1 windows of two accounts agree. */
  lemma {:induction false} WindowsAgree(cfg: Config, splits: seq<string>, separator: string, vs: seq<Span>, ws: seq<Span>, k: nat)
    requires Windows(cfg, splits, separator, vs, |splits|) && Windows(cfg, splits, separator, ws, |splits|)
    requires k < |vs| && k < |ws|
    ensures vs[k] == ws[k]
  {
    if k == 0 {
      SameEnd(cfg, splits, separator, vs, ws, 0, 0);
      SameEnd(cfg, splits, separator, ws, vs, 0, 0);
    } else {
      WindowsAgree(cfg, splits, separator, vs, ws, k - 1);
      var w := vs[k - 1];
      assert Follows(cfg, splits, separator, w, vs[k - 1 + 1]) && Follows(cfg, splits, separator, w, ws[k - 1 + 1]);
      assert vs[k].0 == ws[k].0;
      SameEnd(cfg, splits, separator, vs, ws, k, w.1);
      SameEnd(cfg, splits, separator, ws, vs, k, w.1);
    }
  }

  /** The windows are a function of the pieces, the sizes and the measure. */
  lemma WindowsAreDetermined(cfg: Config, splits: seq<string>, separator: string, vs: seq<Span>, ws: seq<Span>)
    requires Windows(cfg, splits, separator, vs, |splits|) && Windows(cfg, splits, separator, ws, |splits|)
    ensures vs == ws
  {
    WindowsInBounds(cfg, splits, separator, vs, |splits|);
    WindowsInBounds(cfg, splits, separator, ws, |splits|);
    var common := if |vs| <= |ws| then |vs| else |ws|;
    forall k | 0 <= k < common
      ensures vs[k] == ws[k]
    {
      WindowsAgree(cfg, splits, separator, vs, ws, k);
    }
    if splits != [] {
      LastEnds(cfg, splits, separator, vs, ws);
      LastEnds(cfg, splits, separator, ws, vs);
    }
  }

  lemma LastEnds(cfg: Config, splits: seq<string>, separator: string, vs: seq<Span>, ws: seq<Span>)
    requires splits != [] && Windows(cfg, splits, separator, vs, |splits|) && Windows(cfg, splits, separator, ws, |splits|)
    requires forall k :: 0 <= k < |vs| && k < |ws| ==> vs[k] == ws[k]
    ensures |ws| <= |vs|
  {
    var k := |vs| - 1;
    assert k + 1 < |ws| ==> Follows(cfg, splits, separator, ws[k], ws[k + 1]);
  }

  /**
   Windows start in nondecreasing and end in strictly increasing order, leave no piece out, share at
   most ChunkOverlap, and are at most ChunkSize long unless they are one oversized piece.
   */
  lemma WindowProperties(cfg: Config, splits: seq<string>, separator: string, windows: seq<Span>)
    requires Windows(cfg, splits, separator, windows, |splits|)
    requires forall p :: p in splits ==> cfg.length(p) >= 1
    ensures InBounds(windows, |splits|)
    ensures splits != [] ==> windows != [] && windows[0].0 == 0 && windows[|windows| - 1].1 == |splits|
    ensures forall k :: 0 <= k < |windows| - 1 ==>
              && windows[k].0 <= windows[k + 1].0 <= windows[k].1 < windows[k + 1].1
              && Total(cfg.length, splits[windows[k + 1].0..windows[k].1], separator) <= cfg.chunkOverlap
    ensures forall k :: 0 <= k < |windows| ==>
              windows[k].1 == windows[k].0 + 1 || Total(cfg.length, splits[windows[k].0..windows[k].1], separator) <= cfg.chunkSize
  {
    WindowsInBounds(cfg, splits, separator, windows, |splits|);
    forall k | 0 <= k < |windows| - 1
      ensures windows[k].0 <= windows[k + 1].0 <= windows[k].1 < windows[k + 1].1
      ensures Total(cfg.length, splits[windows[k + 1].0..windows[k].1], separator) <= cfg.chunkOverlap
    {
      assert Follows(cfg, splits, separator, windows[k], windows[k + 1]);
    }
    forall k | 0 <= k < |windows|
      ensures windows[k].1 == windows[k].0 + 1 || Total(cfg.length, splits[windows[k].0..windows[k].1], separator) <= cfg.chunkSize
    {
      WindowIsShort(cfg, splits, separator, windows, k);
    }
  }

  lemma WindowIsShort(cfg: Config, splits: seq<string>, separator: string, windows: seq<Span>, k: nat)
    requires Windows(cfg, splits, separator, windows, |splits|) && InBounds(windows, |splits|) && k < |windows|
    requires forall p :: p in splits ==> cfg.length(p) >= 1
    ensures windows[k].1 == windows[k].0 + 1 || Total(cfg.length, splits[windows[k].0..windows[k].1], separator) <= cfg.chunkSize
  {
    var (lo, hi) := windows[k];
    if hi > lo + 1 {
      assert Fits(cfg, splits, separator, lo, hi - 1) by {
        if k > 0 {
          assert Follows(cfg, splits, separator, windows[k - 1], windows[k - 1 + 1]);
          if hi - 1 == windows[k - 1].1 {
            assert splits[lo] in splits && splits[lo..hi - 1][0] == splits[lo];
            assert Total(cfg.length, splits[lo..hi - 1], separator) > 0;
          }
        }
      }
      TotalAppend(cfg.length, splits[lo..hi - 1], splits[hi - 1], separator);
      assert splits[lo..hi - 1] + [splits[hi - 1]] == splits[lo..hi];
    }
  }
}
