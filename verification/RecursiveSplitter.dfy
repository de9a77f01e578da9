/** The recursive splitter: try the separators in order, recurse into pieces that are still too long. */
module RecursiveSplitter {
  import opened Common
  import opened TextPieces
  import opened TextMerge

  /**
   chunks are the slices of text at spans: non-empty, starts in nondecreasing and ends in strictly
   increasing order, nothing between two neighbours, at most ChunkOverlap shared by them, all of the
   text covered.
   */
  ghost predicate Chunking(cfg: Config, text: string, chunks: seq<string>, spans: seq<Span>) {
    && AreSlices(text, chunks, spans)
    && (forall k :: 0 <= k < |spans| - 1 ==> Neighbours(cfg, text, spans[k], spans[k + 1]))
    && (text == "" ==> spans == [])
    && (text != "" ==> spans != [] && spans[0].0 == 0 && spans[|spans| - 1].1 == |text|)
  }

  ghost predicate AreSlices(text: string, chunks: seq<string>, spans: seq<Span>) {
    && |chunks| == |spans|
    && (forall k :: 0 <= k < |spans| ==>
          spans[k].0 < spans[k].1 <= |text| && chunks[k] == text[spans[k].0..spans[k].1])
  }

  ghost predicate Neighbours(cfg: Config, text: string, s: Span, t: Span) {
    s.0 <= t.0 <= s.1 < t.1 <= |text| && cfg.length(text[t.0..s.1]) <= cfg.chunkOverlap
  }

  ghost predicate Bounded(cfg: Config, chunks: seq<string>) {
    forall c :: c in chunks ==> cfg.length(c) <= cfg.chunkSize
  }

  lemma EmptyLength(cfg: Config)
    requires cfg.Additive()
    ensures cfg.length("") == 0
  {
    assert cfg.length("" + "") == cfg.length("") + cfg.length("");
    assert "" + "" == "";
  }

  /** Without overlap the chunks concatenate to the text. */
  lemma {:induction false} NoOverlapIsLossless(cfg: Config, text: string, chunks: seq<string>, spans: seq<Span>)
    requires cfg.Additive() && cfg.chunkOverlap == 0 && Chunking(cfg, text, chunks, spans)
    ensures Concat(chunks) == text
  {
    if spans != [] {
      SuffixConcat(cfg, text, chunks, spans, 0);
      assert chunks[0..] == chunks && text[0..] == text;
    }
  }

  lemma {:induction false} SuffixConcat(cfg: Config, text: string, chunks: seq<string>, spans: seq<Span>, k: nat)
    requires cfg.Additive() && cfg.chunkOverlap == 0 && Chunking(cfg, text, chunks, spans) && k < |spans|
    ensures Concat(chunks[k..]) == text[spans[k].0..]
    decreases |spans| - k
  {
    assert chunks[k..] == [chunks[k]] + chunks[k + 1..];
    if k + 1 < |spans| {
      assert Neighbours(cfg, text, spans[k], spans[k + 1]);
      SuffixConcat(cfg, text, chunks, spans, k + 1);
      assert text[spans[k + 1].0..spans[k].1] == "";
      assert text[spans[k].0..spans[k].1] + text[spans[k].1..] == text[spans[k].0..];
    } else {
      assert text[spans[k].0..|text|] == text[spans[k].0..];
    }
  }

  function Shift(spans: seq<Span>, offset: nat): seq<Span> {
    seq(|spans|, k requires 0 <= k < |spans| => (spans[k].0 + offset, spans[k].1 + offset))
  }

  lemma NeighboursAppend(cfg: Config, a: string, sa: seq<Span>, b: string, sb: seq<Span>, ca: seq<string>, cb: seq<string>, k: nat)
    requires cfg.Additive() && cfg.chunkOverlap >= 0
    requires Chunking(cfg, a, ca, sa) && Chunking(cfg, b, cb, sb)
    requires k + 1 < |sa + Shift(sb, |a|)|
    ensures Neighbours(cfg, a + b, (sa + Shift(sb, |a|))[k], (sa + Shift(sb, |a|))[k + 1])
  {
    if k + 1 < |sa| {
      hide AreSlices, Neighbours, Config.Additive;
      NeighboursBefore(cfg, a, b, sa[k], sa[k + 1]);
    } else if k + 1 == |sa| {
      EmptyLength(cfg);
      assert (a + b)[|a|..|a|] == "";
    } else {
      hide AreSlices, Neighbours, Config.Additive;
      NeighboursAfter(cfg, a, b, sb[k - |sa|], sb[k - |sa| + 1]);
    }
  }

  lemma NeighboursBefore(cfg: Config, a: string, b: string, s: Span, t: Span)
    requires Neighbours(cfg, a, s, t)
    ensures Neighbours(cfg, a + b, s, t)
  {
    assert (a + b)[t.0..s.1] == a[t.0..s.1];
  }

  lemma NeighboursAfter(cfg: Config, a: string, b: string, s: Span, t: Span)
    requires Neighbours(cfg, b, s, t)
    ensures Neighbours(cfg, a + b, (s.0 + |a|, s.1 + |a|), (t.0 + |a|, t.1 + |a|))
  {
    assert (a + b)[t.0 + |a|..s.1 + |a|] == b[t.0..s.1];
  }

  /** Chunkings of two texts make a chunking of their concatenation. */
  lemma ChunkingAppend(cfg: Config, a: string, ca: seq<string>, sa: seq<Span>, b: string, cb: seq<string>, sb: seq<Span>)
    requires cfg.Additive() && cfg.chunkOverlap >= 0
    requires Chunking(cfg, a, ca, sa) && Chunking(cfg, b, cb, sb)
    ensures Chunking(cfg, a + b, ca + cb, sa + Shift(sb, |a|))
  {
    hide Neighbours, Config.Additive, AreSlices;
    SlicesOfConcat(a, ca, sa, b, cb, sb);
    forall k | 0 <= k < |sa + Shift(sb, |a|)| - 1
      ensures Neighbours(cfg, a + b, (sa + Shift(sb, |a|))[k], (sa + Shift(sb, |a|))[k + 1])
    {
      NeighboursAppend(cfg, a, sa, b, sb, ca, cb, k);
    }
  }

  lemma SlicesOfConcat(a: string, ca: seq<string>, sa: seq<Span>, b: string, cb: seq<string>, sb: seq<Span>)
    requires AreSlices(a, ca, sa) && AreSlices(b, cb, sb)
    ensures AreSlices(a + b, ca + cb, sa + Shift(sb, |a|))
  {
    var text, chunks, spans := a + b, ca + cb, sa + Shift(sb, |a|);
    forall k | 0 <= k < |sb|
      ensures text[sb[k].0 + |a|..sb[k].1 + |a|] == b[sb[k].0..sb[k].1]
    {
    }
    forall k | 0 <= k < |spans|
      ensures spans[k].0 < spans[k].1 <= |text| && chunks[k] == text[spans[k].0..spans[k].1]
    {
      if k < |sa| {
        assert spans[k] == sa[k] && chunks[k] == ca[k];
      } else {
        assert spans[k] == (sb[k - |sa|].0 + |a|, sb[k - |sa|].1 + |a|) && chunks[k] == cb[k - |sa|];
      }
    }
  }

  // ----- merged windows are a chunking -----

  function Offset(splits: seq<string>, k: nat): nat
    requires k <= |splits|
  {
    |Concat(splits[..k])|
  }

  lemma SliceOfConcat(splits: seq<string>, lo: nat, hi: nat)
    requires lo <= hi <= |splits|
    ensures Offset(splits, lo) <= Offset(splits, hi) <= |Concat(splits)|
    ensures Concat(splits)[Offset(splits, lo)..Offset(splits, hi)] == Concat(splits[lo..hi])
  {
    assert splits[..hi] == splits[..lo] + splits[lo..hi] && splits == splits[..hi] + splits[hi..];
    ConcatAppend(splits[..lo], splits[lo..hi]);
    ConcatAppend(splits[..hi], splits[hi..]);
  }

  lemma {:induction false} JoinIsConcat(parts: seq<string>)
    ensures Join(parts, "") == Concat(parts)
  {
    if |parts| == 1 {
      ConcatOne(parts[0]);
      assert parts == [parts[0]];
    } else if |parts| > 1 {
      JoinIsConcat(parts[1..]);
      assert parts[0] + "" + Concat(parts[1..]) == parts[0] + Concat(parts[1..]);
    }
  }

  lemma OffsetGrows(splits: seq<string>, lo: nat, hi: nat)
    requires lo < hi <= |splits| && "" !in splits
    ensures Offset(splits, lo) < Offset(splits, hi)
  {
    SliceOfConcat(splits, lo, hi);
    assert splits[lo..hi][0] == splits[lo] && splits[lo] in splits;
    assert splits[lo..hi] == [splits[lo]] + splits[lo..hi][1..];
  }

  function SpanOf(splits: seq<string>, w: Span): Span
    requires w.0 <= w.1 <= |splits|
  {
    (Offset(splits, w.0), Offset(splits, w.1))
  }

  function SpansOf(splits: seq<string>, windows: seq<Span>): seq<Span>
    requires forall k :: 0 <= k < |windows| ==> windows[k].0 <= windows[k].1 <= |splits|
  {
    seq(|windows|, k requires 0 <= k < |windows| => SpanOf(splits, windows[k]))
  }

  /** The texts of the windows before any trimming. */
  function RawOf(splits: seq<string>, windows: seq<Span>): seq<string>
    requires InBounds(windows, |splits|)
  {
    if windows == [] then []
    else
      var last := windows[|windows| - 1];
      RawOf(splits, windows[..|windows| - 1]) + [Concat(splits[last.0..last.1])]
  }

  lemma {:induction false} RawAt(splits: seq<string>, windows: seq<Span>, k: nat)
    requires InBounds(windows, |splits|) && k < |windows|
    ensures |RawOf(splits, windows)| == |windows|
    ensures RawOf(splits, windows)[k] == Concat(splits[windows[k].0..windows[k].1])
  {
    if |windows| > 1 {
      RawAt(splits, windows[..|windows| - 1], if k < |windows| - 1 then k else 0);
    }
  }

  /**
   chunks are the texts of raw in order, each trimmed and left out when nothing remains; only a text that is not
   below ChunkSize may have been kept as it is.
   */
  predicate Stripped(cfg: Config, raw: seq<string>, chunks: seq<string>) {
    if raw == [] then chunks == []
    else
      var before, r := raw[..|raw| - 1], raw[|raw| - 1];
      || (cfg.trim(r) == "" && Stripped(cfg, before, chunks))
      || (chunks != []
          && Stripped(cfg, before, chunks[..|chunks| - 1])
          && (chunks[|chunks| - 1] == cfg.trim(r) != ""
              || (chunks[|chunks| - 1] == r && cfg.length(r) >= cfg.chunkSize)))
  }

  lemma {:induction false} StrippedAppend(cfg: Config, ra: seq<string>, ca: seq<string>, rb: seq<string>, cb: seq<string>)
    requires Stripped(cfg, ra, ca) && Stripped(cfg, rb, cb)
    ensures Stripped(cfg, ra + rb, ca + cb)
    decreases |rb|
  {
    if rb == [] {
      assert ra + rb == ra && ca + cb == ca;
    } else {
      var before, r := rb[..|rb| - 1], rb[|rb| - 1];
      assert (ra + rb)[..|ra + rb| - 1] == ra + before && (ra + rb)[|ra + rb| - 1] == r;
      if cfg.trim(r) == "" && Stripped(cfg, before, cb) {
        StrippedAppend(cfg, ra, ca, before, cb);
      } else {
        assert (ca + cb)[..|ca + cb| - 1] == ca + cb[..|cb| - 1];
        StrippedAppend(cfg, ra, ca, before, cb[..|cb| - 1]);
      }
    }
  }

  /** Without stripping nothing changes. */
  lemma {:induction false} NothingStripped(cfg: Config, raw: seq<string>, chunks: seq<string>)
    requires cfg.NoStrip() && "" !in raw && Stripped(cfg, raw, chunks)
    ensures chunks == raw
  {
    if raw != [] {
      assert raw[|raw| - 1] in raw && "" !in raw[..|raw| - 1];
      NothingStripped(cfg, raw[..|raw| - 1], chunks[..|chunks| - 1]);
      assert raw == raw[..|raw| - 1] + [raw[|raw| - 1]] && chunks == chunks[..|chunks| - 1] + [chunks[|chunks| - 1]];
    }
  }

  lemma {:induction false} EmitIsStripped(cfg: Config, splits: seq<string>, windows: seq<Span>)
    requires InBounds(windows, |splits|)
    ensures Stripped(cfg, RawOf(splits, windows), Emit(cfg, splits, "", windows))
  {
    if windows != [] {
      var front, last := windows[..|windows| - 1], windows[|windows| - 1];
      EmitIsStripped(cfg, splits, front);
      JoinIsConcat(splits[last.0..last.1]);
      var r := Concat(splits[last.0..last.1]);
      var raw, chunks := RawOf(splits, front), Emit(cfg, splits, "", front);
      assert (raw + [r])[..|raw|] == raw && (chunks + [cfg.trim(r)])[..|chunks|] == chunks;
      assert chunks + [] == chunks;
    }
  }

  lemma LengthsPositive(cfg: Config, splits: seq<string>)
    requires cfg.Additive() && "" !in splits
    ensures forall p :: p in splits ==> cfg.length(p) >= 1
  {
  }

  lemma MergedIsChunking(cfg: Config, splits: seq<string>, windows: seq<Span>)
    requires cfg.Additive() && "" !in splits
    requires Windows(cfg, splits, "", windows, |splits|) && InBounds(windows, |splits|)
    ensures Chunking(cfg, Concat(splits), RawOf(splits, windows), SpansOf(splits, windows))
  {
    hide AreSlices, Neighbours, Windows, RawOf, SpansOf, Concat;
    MergedSlices(splits, windows);
    MergedNeighbours(cfg, splits, windows);
    MergedEnds(cfg, splits, windows);
  }

  lemma MergedNeighbours(cfg: Config, splits: seq<string>, windows: seq<Span>)
    requires cfg.Additive() && "" !in splits
    requires Windows(cfg, splits, "", windows, |splits|) && InBounds(windows, |splits|)
    ensures var spans := SpansOf(splits, windows);
            forall k :: 0 <= k < |spans| - 1 ==> Neighbours(cfg, Concat(splits), spans[k], spans[k + 1])
  {
    hide Neighbours, Windows, SpanOf;
    LengthsPositive(cfg, splits);
    WindowProperties(cfg, splits, "", windows);
    var spans := SpansOf(splits, windows);
    forall k | 0 <= k < |spans| - 1
      ensures Neighbours(cfg, Concat(splits), spans[k], spans[k + 1])
    {
      WindowNeighbours(cfg, splits, windows[k], windows[k + 1]);
    }
  }

  lemma MergedEnds(cfg: Config, splits: seq<string>, windows: seq<Span>)
    requires cfg.Additive() && "" !in splits
    requires Windows(cfg, splits, "", windows, |splits|) && InBounds(windows, |splits|)
    ensures var (text, spans) := (Concat(splits), SpansOf(splits, windows));
            && (text == "" ==> spans == [])
            && (text != "" ==> spans != [] && spans[0].0 == 0 && spans[|spans| - 1].1 == |text|)
  {
    hide Windows, Concat, Offset, Config.Additive;
    if splits == [] {
      NoPiecesNoWindows(cfg, "", windows);
    } else {
      WindowEnds(cfg, splits, windows);
      WholeSpan(splits);
    }
  }

  lemma WindowEnds(cfg: Config, splits: seq<string>, windows: seq<Span>)
    requires cfg.Additive() && "" !in splits && splits != []
    requires Windows(cfg, splits, "", windows, |splits|)
    ensures windows != [] && windows[0].0 == 0 && windows[|windows| - 1].1 == |splits|
  {
    LengthsPositive(cfg, splits);
    WindowProperties(cfg, splits, "", windows);
  }

  lemma WholeSpan(splits: seq<string>)
    requires splits != [] && "" !in splits
    ensures Offset(splits, 0) == 0 && Offset(splits, |splits|) == |Concat(splits)| > 0
  {
    OffsetGrows(splits, 0, |splits|);
    assert splits[..|splits|] == splits && splits[..0] == [];
  }

  lemma NoPiecesNoWindows(cfg: Config, separator: string, windows: seq<Span>)
    requires Windows(cfg, [], separator, windows, 0)
    ensures windows == [] && Concat([]) == ""
  {
  }

  lemma MergedSlices(splits: seq<string>, windows: seq<Span>)
    requires InBounds(windows, |splits|) && "" !in splits
    ensures AreSlices(Concat(splits), RawOf(splits, windows), SpansOf(splits, windows))
  {
    if windows != [] {
      RawAt(splits, windows, 0);
    }
    hide RawOf;
    forall k | 0 <= k < |windows|
      ensures var s := SpanOf(splits, windows[k]);
              s.0 < s.1 <= |Concat(splits)| && Concat(splits)[s.0..s.1] == RawOf(splits, windows)[k]
    {
      RawAt(splits, windows, k);
      OffsetGrows(splits, windows[k].0, windows[k].1);
      SliceOfConcat(splits, windows[k].0, windows[k].1);
    }
  }

  lemma WindowNeighbours(cfg: Config, splits: seq<string>, w: Span, v: Span)
    requires cfg.Additive() && "" !in splits
    requires w.0 <= v.0 <= w.1 < v.1 <= |splits|
    requires Total(cfg.length, splits[v.0..w.1], "") <= cfg.chunkOverlap
    ensures Neighbours(cfg, Concat(splits), SpanOf(splits, w), SpanOf(splits, v))
  {
    SliceOfConcat(splits, w.0, v.0);
    SliceOfConcat(splits, v.0, w.1);
    OffsetGrows(splits, w.1, v.1);
    SliceOfConcat(splits, v.1, |splits|);
    TotalIsJoinedLength(cfg, splits[v.0..w.1], "");
    JoinIsConcat(splits[v.0..w.1]);
  }

  /** Chunks merged from short pieces are short, trimmed or not. */
  lemma {:induction false} MergedIsBounded(cfg: Config, splits: seq<string>, separator: string, windows: seq<Span>, all: seq<Span>)
    requires cfg.Additive() && "" !in splits && cfg.chunkOverlap <= cfg.chunkSize
    requires TrimShortens(cfg) && AllShort(cfg, splits)
    requires Windows(cfg, splits, separator, all, |splits|) && InBounds(windows, |splits|)
    requires |windows| <= |all| && windows == all[..|windows|]
    ensures Bounded(cfg, Emit(cfg, splits, separator, windows))
  {
    if windows != [] {
      hide Windows, AllShort, Config.Additive;
      var k := |windows| - 1;
      assert all[k] == windows[k];
      MergedIsBounded(cfg, splits, separator, windows[..k], all);
      WindowBounded(cfg, splits, separator, all, k);
    }
  }

  lemma WindowBounded(cfg: Config, splits: seq<string>, separator: string, windows: seq<Span>, k: nat)
    requires cfg.Additive() && "" !in splits && AllShort(cfg, splits)
    requires Windows(cfg, splits, separator, windows, |splits|) && k < |windows|
    ensures windows[k].0 < windows[k].1 <= |splits|
    ensures cfg.length(Join(splits[windows[k].0..windows[k].1], separator)) <= cfg.chunkSize
  {
    LengthsPositive(cfg, splits);
    WindowProperties(cfg, splits, separator, windows);
    hide Windows;
    var (lo, hi) := windows[k];
    TotalIsJoinedLength(cfg, splits[lo..hi], separator);
    if hi == lo + 1 {
      assert splits[lo..hi] == [splits[lo]] && splits[lo] in splits;
    }
  }

  // ----- the recursion -----

  predicate Usable(cfg: Config, text: string, separator: string) {
    separator == "" || cfg.find(text, separator) != []
  }

  /** The first separator that is empty or occurs in the text; the last one if none does. */
  method Choose(cfg: Config, text: string, separators: seq<string>) returns (separator: string, rest: seq<string>)
    requires separators != []
    ensures |rest| < |separators|
    ensures forall i: nat :: IsFirstUsable(cfg, text, separators, i) ==>
                               separator == separators[i] && rest == separators[i + 1..]
    ensures NoneUsable(cfg, text, separators) ==> separator == separators[|separators| - 1] && rest == []
    ensures separators[|separators| - 1] == "" ==>
              (rest == [] && separator == "") || (rest != [] && rest[|rest| - 1] == "")
  {
    separator, rest := separators[|separators| - 1], [];
    for i := 0 to |separators|
      invariant separator == separators[|separators| - 1] && rest == []
      invariant NoneUsable(cfg, text, separators[..i])
    {
      if Usable(cfg, text, separators[i]) {
        separator, rest := separators[i], separators[i + 1..];
        EndOfRest(separators, i);
        OnlyFirst(cfg, text, separators, i);
        return;
      }
      assert separators[..i + 1] == separators[..i] + [separators[i]];
    }
    assert separators[..|separators|] == separators;
  }

  predicate NoneUsable(cfg: Config, text: string, separators: seq<string>) {
    forall j :: 0 <= j < |separators| ==> !Usable(cfg, text, separators[j])
  }

  predicate IsFirstUsable(cfg: Config, text: string, separators: seq<string>, i: nat) {
    i < |separators| && Usable(cfg, text, separators[i]) && NoneUsable(cfg, text, separators[..i])
  }

  lemma OnlyFirst(cfg: Config, text: string, separators: seq<string>, i: nat)
    requires IsFirstUsable(cfg, text, separators, i)
    ensures !NoneUsable(cfg, text, separators)
    ensures forall k: nat :: IsFirstUsable(cfg, text, separators, k) ==> k == i
  {
    NoneBefore(cfg, text, separators, i);
    forall k: nat | IsFirstUsable(cfg, text, separators, k)
      ensures k == i
    {
      NoneBefore(cfg, text, separators, k);
    }
  }

  lemma NoneBefore(cfg: Config, text: string, separators: seq<string>, i: nat)
    requires i <= |separators| && NoneUsable(cfg, text, separators[..i])
    ensures forall k: nat :: k < i ==> !Usable(cfg, text, separators[k])
  {
    assert forall k: nat :: k < i ==> separators[..i][k] == separators[k];
  }

  lemma EndOfRest(separators: seq<string>, i: nat)
    requires i < |separators|
    ensures if i + 1 == |separators| then separators[i + 1..] == []
            else separators[i + 1..] != [] && separators[i + 1..][|separators| - i - 2] == separators[|separators| - 1]
  {
  }

  // ----- what the recursion computes -----

  /** The place of the separator a level works with: the first usable one, the last one if none is. */
  function ChosenAt(cfg: Config, text: string, separators: seq<string>): (at: nat)
    requires separators != []
    ensures at < |separators|
  {
    if |separators| == 1 || Usable(cfg, text, separators[0]) then 0 else 1 + ChosenAt(cfg, text, separators[1..])
  }

  lemma {:induction false} ChosenIsFirstUsable(cfg: Config, text: string, separators: seq<string>)
    requires separators != []
    ensures var at := ChosenAt(cfg, text, separators);
            || IsFirstUsable(cfg, text, separators, at)
            || (NoneUsable(cfg, text, separators) && at == |separators| - 1)
  {
    if |separators| > 1 && !Usable(cfg, text, separators[0]) {
      var at := ChosenAt(cfg, text, separators[1..]);
      ChosenIsFirstUsable(cfg, text, separators[1..]);
      assert separators == [separators[0]] + separators[1..];
      assert separators[..at + 1] == [separators[0]] + separators[1..][..at];
    }
  }

  function MergeSeparator(cfg: Config, separator: string): string {
    if cfg.keep == KeepNone then separator else ""
  }

  /** The chunks of the windows over short pieces; the windows are determined by the pieces. */
  ghost function Merged(cfg: Config, pieces: seq<string>, separator: string): seq<string> {
    if exists ws :: Windows(cfg, pieces, separator, ws, |pieces|) && InBounds(ws, |pieces|) then
      var ws :| Windows(cfg, pieces, separator, ws, |pieces|) && InBounds(ws, |pieces|);
      Emit(cfg, pieces, separator, ws)
    else []
  }

  lemma MergedIs(cfg: Config, pieces: seq<string>, separator: string, windows: seq<Span>)
    requires Windows(cfg, pieces, separator, windows, |pieces|) && InBounds(windows, |pieces|)
    ensures Merged(cfg, pieces, separator) == Emit(cfg, pieces, separator, windows)
  {
    forall ws | Windows(cfg, pieces, separator, ws, |pieces|)
      ensures ws == windows
    {
      WindowsAreDetermined(cfg, pieces, separator, ws, windows);
    }
  }

  lemma NothingMerged(cfg: Config, separator: string)
    ensures Merged(cfg, [], separator) == []
  {
    NoWindows(cfg, [], separator);
    MergedIs(cfg, [], separator, []);
  }

  /** Where the run of pieces shorter than ChunkSize starts with which the pieces end. */
  function RunStart(cfg: Config, pieces: seq<string>): (k: nat)
    ensures k <= |pieces| && forall p :: p in pieces[k..] ==> cfg.length(p) < cfg.chunkSize
    ensures k > 0 ==> cfg.length(pieces[k - 1]) >= cfg.chunkSize
  {
    if pieces == [] || cfg.length(pieces[|pieces| - 1]) >= cfg.chunkSize then |pieces|
    else
      var front := pieces[..|pieces| - 1];
      assert pieces[RunStart(cfg, front)..] == front[RunStart(cfg, front)..] + [pieces[|pieces| - 1]];
      RunStart(cfg, front)
  }

  /**
   The chunks of a text: its pieces under the chosen separator, each maximal run of short pieces merged, each longer
   piece kept whole if no separator is left and split by the later separators otherwise.
   */
  ghost function SplitOf(cfg: Config, text: string, separators: seq<string>): seq<string>
    requires cfg.Valid() && separators != []
    decreases |separators|, 0, 0
  {
    var at := ChosenAt(cfg, text, separators);
    ChunksOf(cfg, Pieces(cfg, text, separators[at]), MergeSeparator(cfg, separators[at]), separators[at + 1..])
  }

  ghost function ChunksOf(cfg: Config, pieces: seq<string>, separator: string, rest: seq<string>): seq<string>
    requires cfg.Valid()
    decreases |rest|, 1, |pieces|
  {
    var k := RunStart(cfg, pieces);
    (if k == 0 then [] else ChunksOf(cfg, pieces[..k - 1], separator, rest) + ChunksOfLong(cfg, pieces[k - 1], rest))
    + Merged(cfg, pieces[k..], separator)
  }

  ghost function ChunksOfLong(cfg: Config, piece: string, rest: seq<string>): seq<string>
    requires cfg.Valid()
    decreases |rest|, 0, 1
  {
    if rest == [] then [piece] else SplitOf(cfg, piece, rest)
  }

  /** When every piece is short the chunks are the windows over all of them, and are cut nowhere else. */
  lemma ShortPiecesAreMerged(cfg: Config, text: string, separators: seq<string>, i: nat, windows: seq<Span>)
    requires cfg.Valid() && IsFirstUsable(cfg, text, separators, i)
    requires var pieces := Pieces(cfg, text, separators[i]);
             && (forall p :: p in pieces ==> cfg.length(p) < cfg.chunkSize)
             && Windows(cfg, pieces, MergeSeparator(cfg, separators[i]), windows, |pieces|) && InBounds(windows, |pieces|)
    ensures SplitOf(cfg, text, separators)
            == Emit(cfg, Pieces(cfg, text, separators[i]), MergeSeparator(cfg, separators[i]), windows)
  {
    ChosenIsFirstUsable(cfg, text, separators);
    OnlyFirst(cfg, text, separators, i);
    var pieces := Pieces(cfg, text, separators[i]);
    hide Pieces, Windows;
    RunStartIs(cfg, pieces, 0);
    assert pieces[0..] == pieces;
    MergedIs(cfg, pieces, MergeSeparator(cfg, separators[i]), windows);
    assert [] + Merged(cfg, pieces, MergeSeparator(cfg, separators[i])) == Merged(cfg, pieces, MergeSeparator(cfg, separators[i]));
  }

  lemma RunStartIs(cfg: Config, pieces: seq<string>, k: nat)
    requires k <= |pieces| && forall p :: p in pieces[k..] ==> cfg.length(p) < cfg.chunkSize
    requires k > 0 ==> cfg.length(pieces[k - 1]) >= cfg.chunkSize
    ensures RunStart(cfg, pieces) == k
  {
    var r := RunStart(cfg, pieces);
    hide RunStart;
    ShortFrom(cfg, pieces, k);
    ShortFrom(cfg, pieces, r);
  }

  lemma ShortFrom(cfg: Config, pieces: seq<string>, k: nat)
    requires k <= |pieces| && forall p :: p in pieces[k..] ==> cfg.length(p) < cfg.chunkSize
    ensures forall i :: k <= i < |pieces| ==> cfg.length(pieces[i]) < cfg.chunkSize
  {
    assert forall i :: k <= i < |pieces| ==> pieces[k..][i - k] == pieces[i];
  }

  /** A run of short pieces after a long one, or at the front, adds its merged chunks. */
  lemma RunAppend(cfg: Config, pieces: seq<string>, j: nat, separator: string, rest: seq<string>)
    requires cfg.Valid() && j <= |pieces| && forall p :: p in pieces[j..] ==> cfg.length(p) < cfg.chunkSize
    requires j > 0 ==> cfg.length(pieces[j - 1]) >= cfg.chunkSize
    ensures ChunksOf(cfg, pieces, separator, rest)
            == ChunksOf(cfg, pieces[..j], separator, rest) + Merged(cfg, pieces[j..], separator)
  {
    hide Merged;
    var done := pieces[..j];
    RunStartIs(cfg, pieces, j);
    RunStartIs(cfg, done, j);
    assert done[j..] == [];
    NothingMerged(cfg, separator);
    var first := if j == 0 then [] else ChunksOf(cfg, pieces[..j - 1], separator, rest) + ChunksOfLong(cfg, pieces[j - 1], rest);
    assert j > 0 ==> done[..j - 1] == pieces[..j - 1] && done[j - 1] == pieces[j - 1];
    assert ChunksOf(cfg, pieces, separator, rest) == first + Merged(cfg, pieces[j..], separator);
    assert ChunksOf(cfg, done, separator, rest) == first + [];
    assert first + [] == first;
  }

  lemma LongAppend(cfg: Config, pieces: seq<string>, separator: string, rest: seq<string>)
    requires cfg.Valid() && pieces != [] && cfg.length(pieces[|pieces| - 1]) >= cfg.chunkSize
    ensures ChunksOf(cfg, pieces, separator, rest)
            == ChunksOf(cfg, pieces[..|pieces| - 1], separator, rest) + ChunksOfLong(cfg, pieces[|pieces| - 1], rest)
  {
    var last := |pieces| - 1;
    assert pieces[|pieces|..] == [];
    NothingMerged(cfg, separator);
    var all := ChunksOf(cfg, pieces[..last], separator, rest) + ChunksOfLong(cfg, pieces[last], rest);
    assert all + [] == all;
  }

  /** Whether no separator is dropped, under an additive measure. */
  ghost predicate Keeping(cfg: Config) {
    cfg.keep != KeepNone && cfg.Additive()
  }

  /** chunks are a chunking of text, stripped. */
  ghost predicate Accounted(cfg: Config, text: string, chunks: seq<string>, raw: seq<string>, spans: seq<Span>) {
    Chunking(cfg, text, raw, spans) && Stripped(cfg, raw, chunks)
  }

  ghost predicate TrimShortens(cfg: Config) {
    forall s: string :: cfg.length(cfg.trim(s)) <= cfg.length(s)
  }

  ghost predicate AllShort(cfg: Config, splits: seq<string>) {
    forall p :: p in splits ==> cfg.length(p) <= cfg.chunkSize
  }

  /** Whether chunk lengths are bounded: trimming does not lengthen, every rune fits, and the last separator is the empty one. */
  ghost predicate Bounding(cfg: Config, separators: seq<string>) {
    && cfg.Additive() && TrimShortens(cfg)
    && (forall r: string :: |r| == 1 ==> cfg.length(r) <= cfg.chunkSize)
    && separators != [] && separators[|separators| - 1] == ""
  }

  /** What is known of the chunks of a part of the text. */
  ghost predicate Account(cfg: Config, separators: seq<string>, text: string, chunks: seq<string>, raw: seq<string>, spans: seq<Span>) {
    && (Keeping(cfg) ==> Accounted(cfg, text, chunks, raw, spans))
    && (Bounding(cfg, separators) ==> Bounded(cfg, chunks))
  }

  /** Merge pieces that are short enough, when there are any. */
  method Flush(cfg: Config, good: seq<string>, separator: string, ghost separators: seq<string>)
    returns (chunks: seq<string>, ghost raw: seq<string>, ghost spans: seq<Span>)
    requires cfg.Valid() && "" !in good && AllShort(cfg, good) && (cfg.keep != KeepNone ==> separator == "")
    ensures Account(cfg, separators, Concat(good), chunks, raw, spans)
    ensures chunks == Merged(cfg, good, separator)
  {
    hide Stripped, Merged;
    chunks, raw, spans := [], [], [];
    NoChunks(cfg, separators);
    NothingMerged(cfg, separator);
    if |good| > 0 {
      ghost var windows;
      chunks, windows := MergeSplits(cfg, good, separator);
      MergedIs(cfg, good, separator, windows);
      raw := RawOf(good, windows);
      if Keeping(cfg) {
        MergedIsChunking(cfg, good, windows);
        EmitIsStripped(cfg, good, windows);
        spans := SpansOf(good, windows);
      }
      if Bounding(cfg, separators) {
        assert windows == windows[..|windows|];
        MergedIsBounded(cfg, good, separator, windows, windows);
      }
    }
  }

  /** A piece that is still too long: kept whole when no separator is left, split further otherwise. */
  method SplitLong(cfg: Config, split: string, rest: seq<string>, ghost separators: seq<string>)
    returns (part: seq<string>, ghost raw: seq<string>, ghost more: seq<Span>)
    requires cfg.Valid() && split != "" && cfg.length(split) >= cfg.chunkSize
    requires Bounding(cfg, separators) ==> if rest == [] then |split| == 1 else rest[|rest| - 1] == ""
    ensures Account(cfg, separators, split, part, raw, more)
    ensures part == ChunksOfLong(cfg, split, rest)
    decreases |rest|, 1
  {
    if |rest| == 0 {
      part, raw, more := [split], [split], [(0, |split|)];
      WholeIsChunking(cfg, split);
    } else {
      part, raw, more := SplitText(cfg, split, rest);
    }
  }

  /** good are the short pieces since the last long one. */
  ghost predicate Pending(cfg: Config, splits: seq<string>, from: nat, i: nat, good: seq<string>) {
    && from <= i <= |splits| && good == splits[from..i] && "" !in good
    && (forall p :: p in good ==> cfg.length(p) < cfg.chunkSize)
    && (from > 0 ==> cfg.length(splits[from - 1]) >= cfg.chunkSize)
  }

  lemma NonePending(cfg: Config, splits: seq<string>, i: nat)
    requires i <= |splits| && (i > 0 ==> cfg.length(splits[i - 1]) >= cfg.chunkSize)
    ensures Pending(cfg, splits, i, i, [])
  {
  }

  lemma OneMorePending(cfg: Config, splits: seq<string>, from: nat, i: nat, good: seq<string>)
    requires Pending(cfg, splits, from, i, good) && i < |splits| && splits[i] != "" && cfg.length(splits[i]) < cfg.chunkSize
    ensures Pending(cfg, splits, from, i + 1, good + [splits[i]])
  {
    SliceGrows(splits, from, i);
  }

  lemma PendingAreShort(cfg: Config, splits: seq<string>, from: nat, i: nat, good: seq<string>)
    requires Pending(cfg, splits, from, i, good)
    ensures "" !in good && AllShort(cfg, good)
  {
  }

  /** What Choose promises, in terms of ChosenAt. */
  lemma Chosen(cfg: Config, text: string, separators: seq<string>, separator: string, rest: seq<string>)
    requires separators != []
    requires forall i: nat :: IsFirstUsable(cfg, text, separators, i) ==>
                                separator == separators[i] && rest == separators[i + 1..]
    requires NoneUsable(cfg, text, separators) ==> separator == separators[|separators| - 1] && rest == []
    ensures separator == separators[ChosenAt(cfg, text, separators)]
    ensures rest == separators[ChosenAt(cfg, text, separators) + 1..]
    ensures Bounding(cfg, separators) ==> if rest == [] then separator == "" else rest[|rest| - 1] == ""
  {
    hide IsFirstUsable, NoneUsable, Config.Additive, TrimShortens, ChosenAt;
    ChosenIsFirstUsable(cfg, text, separators);
    EndOfRest(separators, ChosenAt(cfg, text, separators));
  }

  method SplitText(cfg: Config, text: string, separators: seq<string>)
    returns (chunks: seq<string>, ghost raw: seq<string>, ghost spans: seq<Span>)
    requires cfg.Valid() && separators != []
    ensures Account(cfg, separators, text, chunks, raw, spans)
    ensures chunks == SplitOf(cfg, text, separators)
    decreases |separators|, 0
  {
    hide Account, Pieces, Concat, Merged, ChunksOf, Pending, AllShort, Config.Additive, TrimShortens, Keeping, Bounding,
      Config.Valid, IsFirstUsable, NoneUsable, ChosenAt;
    var separator, rest := Choose(cfg, text, separators);
    Chosen(cfg, text, separators, separator, rest);
    var splits := SplitTextWithRegex(cfg, text, separator);
    PiecesFacts(cfg, text, separator);
    var mergeSeparator := MergeSeparator(cfg, separator);
    var good: seq<string> := [];
    var part: seq<string>;
    chunks, raw, spans := [], [], [];
    ghost var done := "";
    ghost var more: seq<Span>;
    ghost var whole: seq<string>;
    ghost var from := 0;
    NoChunks(cfg, separators);
    NothingSplit(cfg, mergeSeparator, rest);
    NonePending(cfg, splits, 0);
    for i := 0 to |splits|
      invariant from <= i && Pending(cfg, splits, from, i, good)
      invariant chunks == ChunksOf(cfg, splits[..from], mergeSeparator, rest)
      invariant Concat(splits[..i]) == done + Concat(good)
      invariant Account(cfg, separators, done, chunks, raw, spans)
    {
      var split := splits[i];
      TakeNext(splits, i);
      if cfg.length(split) < cfg.chunkSize {
        ConcatLast(done, good, split);
        OneMorePending(cfg, splits, from, i, good);
        good := good + [split];
        continue;
      }
      PendingAreShort(cfg, splits, from, i, good);
      RunThenLong(cfg, splits, from, i, good, mergeSeparator, rest);
      part, whole, more := Flush(cfg, good, mergeSeparator, separators);
      chunks, raw, spans, done := Append(cfg, separators, chunks, raw, spans, done, part, whole, more, Concat(good));
      good, from := [], i + 1;
      NonePending(cfg, splits, i + 1);
      part, whole, more := SplitLong(cfg, split, rest, separators);
      chunks, raw, spans, done := Append(cfg, separators, chunks, raw, spans, done, part, whole, more, split);
      assert done + "" == done;
    }
    PendingAreShort(cfg, splits, from, |splits|, good);
    RunAtEnd(cfg, splits, from, good, mergeSeparator, rest);
    part, whole, more := Flush(cfg, good, mergeSeparator, separators);
    chunks, raw, spans, done := Append(cfg, separators, chunks, raw, spans, done, part, whole, more, Concat(good));
    assert splits[..|splits|] == splits;
    AccountOfText(cfg, separators, done, text, chunks, raw, spans);
  }

  /** Where separators are dropped the account is of no text in particular. */
  lemma AccountOfText(cfg: Config, separators: seq<string>, done: string, text: string, chunks: seq<string>,
                      raw: seq<string>, spans: seq<Span>)
    requires Account(cfg, separators, done, chunks, raw, spans) && (cfg.keep != KeepNone ==> done == text)
    ensures Account(cfg, separators, text, chunks, raw, spans)
  {
  }

  lemma NothingSplit(cfg: Config, separator: string, rest: seq<string>)
    requires cfg.Valid()
    ensures forall pieces: seq<string> :: ChunksOf(cfg, pieces[..0], separator, rest) == []
  {
    NothingMerged(cfg, separator);
    hide Merged;
    assert ChunksOf(cfg, [], separator, rest) == [] + Merged(cfg, [], separator);
    assert forall pieces: seq<string> :: pieces[..0] == [];
  }

  lemma RunThenLong(cfg: Config, splits: seq<string>, from: nat, i: nat, good: seq<string>, separator: string, rest: seq<string>)
    requires cfg.Valid() && Pending(cfg, splits, from, i, good) && i < |splits| && cfg.length(splits[i]) >= cfg.chunkSize
    ensures ChunksOf(cfg, splits[..i + 1], separator, rest)
            == (ChunksOf(cfg, splits[..from], separator, rest) + Merged(cfg, good, separator)) + ChunksOfLong(cfg, splits[i], rest)
  {
    hide ChunksOf, Merged;
    var before, upTo := splits[..i], splits[..i + 1];
    assert before[from..] == splits[from..i] && before[..from] == splits[..from];
    assert upTo[..i] == before && upTo[i] == splits[i];
    RunAppend(cfg, before, from, separator, rest);
    LongAppend(cfg, upTo, separator, rest);
  }

  lemma RunAtEnd(cfg: Config, splits: seq<string>, from: nat, good: seq<string>, separator: string, rest: seq<string>)
    requires cfg.Valid() && Pending(cfg, splits, from, |splits|, good)
    ensures ChunksOf(cfg, splits, separator, rest) == ChunksOf(cfg, splits[..from], separator, rest) + Merged(cfg, good, separator)
  {
    hide ChunksOf, Merged;
    assert splits[from..|splits|] == splits[from..];
    RunAppend(cfg, splits, from, separator, rest);
  }

  lemma TakeNext(splits: seq<string>, i: nat)
    requires i < |splits|
    ensures Concat(splits[..i + 1]) == Concat(splits[..i]) + splits[i]
  {
    assert splits[..i + 1] == splits[..i] + [splits[i]];
    ConcatAppend(splits[..i], [splits[i]]);
    ConcatOne(splits[i]);
  }

  lemma ConcatLast(done: string, good: seq<string>, split: string)
    ensures (done + Concat(good)) + split == done + Concat(good + [split])
  {
    ConcatAppend(good, [split]);
    ConcatOne(split);
  }

  lemma NoChunks(cfg: Config, separators: seq<string>)
    ensures Account(cfg, separators, "", [], [], []) && Concat([]) == ""
  {
  }

  lemma WholeIsChunking(cfg: Config, text: string)
    requires text != "" && cfg.length(text) >= cfg.chunkSize
    ensures Accounted(cfg, text, [text], [text], [(0, |text|)])
  {
    assert [text][..0] == [] && Stripped(cfg, [], []);
  }

  /** Add the chunks of one more part of the text. */
  method Append(cfg: Config, ghost separators: seq<string>, chunks: seq<string>, ghost raw: seq<string>, ghost spans: seq<Span>,
                ghost done: string, part: seq<string>, ghost whole: seq<string>, ghost more: seq<Span>, ghost text: string)
    returns (chunks': seq<string>, ghost raw': seq<string>, ghost spans': seq<Span>, ghost done': string)
    requires cfg.Valid()
    requires Account(cfg, separators, done, chunks, raw, spans) && Account(cfg, separators, text, part, whole, more)
    ensures chunks' == chunks + part && done' == done + text
    ensures Account(cfg, separators, done', chunks', raw', spans')
  {
    hide Chunking, Stripped;
    chunks', raw', done', spans' := chunks + part, raw + whole, done + text, spans + Shift(more, |done|);
    if Keeping(cfg) {
      ChunkingAppend(cfg, done, raw, spans, text, whole, more);
      StrippedAppend(cfg, raw, chunks, whole, part);
    }
  }

  // ----- the two splitters -----

  /**
   NewRecursiveCharacter and SplitText: defaults, validation, then the recursion.  The separators are always
   kept, so without stripping nothing is lost, and with it only what is trimmed off.
   */
  method Split(raw: Config, given: seq<string>, text: string) returns (result: Option<seq<string>>)
    requires raw.trim("") == "" && forall t, separator :: InOrder(raw.find(t, separator), |t|)
    ensures result.None? <==> raw.Normalize().None?
    ensures result.Some? ==>
              result.value == SplitOf(raw.Normalize().value.(keep := if raw.keep == KeepNone then KeepStart else raw.keep),
                                      text, if given == [] then ["\n\n", "\n", " ", ""] else given)
    ensures result.Some? && raw.Additive() ==>
              exists whole, spans :: Accounted(raw.Normalize().value, text, result.value, whole, spans)
    ensures result.Some? && raw.Additive() && raw.NoStrip() ==>
              exists spans :: Chunking(raw, text, result.value, spans)
    ensures result.Some? && raw.Additive() && raw.NoStrip() && raw.chunkOverlap == 0 ==> Concat(result.value) == text
    ensures result.Some? && Bounding(raw.Normalize().value, if given == [] then [""] else given) ==>
              Bounded(raw.Normalize().value, result.value)
  {
    hide SplitOf, Chunking, Stripped;
    var separators := if |given| == 0 then ["\n\n", "\n", " ", ""] else given;
    var normalized := raw.Normalize();
    if normalized.None? {
      return None;
    }
    var cfg := normalized.value.(keep := if raw.keep == KeepNone then KeepStart else raw.keep);
    var chunks;
    ghost var whole, spans;
    chunks, whole, spans := SplitText(cfg, text, separators);
    result := Some(chunks);
    if raw.Additive() {
      assert Keeping(cfg);
      SameAccount(cfg, normalized.value, text, chunks, whole, spans);
      if raw.NoStrip() {
        UnstrippedAccount(cfg, text, chunks, whole, spans);
        ChunkingOnlyNeeds(cfg, raw, text, chunks, spans);
        if raw.chunkOverlap == 0 {
          NoOverlapIsLossless(raw, text, chunks, spans);
        }
      }
    }
    if Bounding(normalized.value, if given == [] then [""] else given) {
      assert separators[|separators| - 1] == "";
      assert Bounding(cfg, separators);
    }
  }

  lemma SameAccount(c1: Config, c2: Config, text: string, chunks: seq<string>, raw: seq<string>, spans: seq<Span>)
    requires c1 == c2.(keep := c1.keep) && Accounted(c1, text, chunks, raw, spans)
    ensures Accounted(c2, text, chunks, raw, spans)
  {
    ChunkingOnlyNeeds(c1, c2, text, raw, spans);
    StrippedOnlyNeeds(c1, c2, raw, chunks);
  }

  lemma {:induction false} StrippedOnlyNeeds(c1: Config, c2: Config, raw: seq<string>, chunks: seq<string>)
    requires c1 == c2.(keep := c1.keep) && Stripped(c1, raw, chunks)
    ensures Stripped(c2, raw, chunks)
  {
    if raw != [] {
      var before := raw[..|raw| - 1];
      if c1.trim(raw[|raw| - 1]) == "" && Stripped(c1, before, chunks) {
        StrippedOnlyNeeds(c1, c2, before, chunks);
      } else {
        StrippedOnlyNeeds(c1, c2, before, chunks[..|chunks| - 1]);
      }
    }
  }

  /** When nothing is stripped the chunks are the chunking. */
  lemma UnstrippedAccount(cfg: Config, text: string, chunks: seq<string>, raw: seq<string>, spans: seq<Span>)
    requires cfg.NoStrip() && Accounted(cfg, text, chunks, raw, spans)
    ensures chunks == raw && Chunking(cfg, text, chunks, spans)
  {
    forall k | 0 <= k < |raw| ensures raw[k] != "" {
      assert spans[k].0 < spans[k].1;
    }
    NothingStripped(cfg, raw, chunks);
  }

  lemma ChunkingOnlyNeeds(c1: Config, c2: Config, text: string, chunks: seq<string>, spans: seq<Span>)
    requires c1.length == c2.length && c1.chunkOverlap == c2.chunkOverlap
    requires Chunking(c1, text, chunks, spans)
    ensures Chunking(c2, text, chunks, spans)
  {
    forall k | 0 <= k < |spans| - 1
      ensures Neighbours(c2, text, spans[k], spans[k + 1])
    {
      assert Neighbours(c1, text, spans[k], spans[k + 1]);
    }
  }

  /** The character splitter: one separator, no recursion, so a chunk may be one oversized piece. */
  method SplitOnCharacter(cfg: Config, separator: string, lookaround: bool, text: string)
    returns (chunks: seq<string>, ghost windows: seq<Span>)
    requires cfg.Valid()
    ensures var mergeSeparator := if cfg.keep == KeepNone && !lookaround then separator else "";
            var pieces := Pieces(cfg, text, separator);
            && Windows(cfg, pieces, mergeSeparator, windows, |pieces|) && InBounds(windows, |pieces|)
            && chunks == Emit(cfg, pieces, mergeSeparator, windows)
    ensures cfg.Additive() && (cfg.keep != KeepNone || separator == "") ==>
              exists raw, spans :: Accounted(cfg, text, chunks, raw, spans)
    ensures cfg.keep == KeepNone && separator != "" ==>
              exists parts :: Restores(cfg, text, separator, parts, Pieces(cfg, text, separator))
  {
    var splits := SplitTextWithRegex(cfg, text, separator);
    PiecesFacts(cfg, text, separator);
    var mergeSeparator := if cfg.keep == KeepNone && !lookaround then separator else "";
    chunks, windows := MergeSplits(cfg, splits, mergeSeparator);
    if cfg.keep == KeepNone && separator != "" {
      DroppingLosesOnlySeparators(cfg, text, separator);
    }
    if cfg.Additive() && (cfg.keep != KeepNone || separator == "") {
      MergedIsChunking(cfg, splits, windows);
      EmitIsStripped(cfg, splits, windows);
      assert Accounted(cfg, text, chunks, RawOf(splits, windows), SpansOf(splits, windows));
    }
  }
}
