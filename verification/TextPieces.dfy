/**
 Cutting text at separator matches.  Text is a sequence of runes.  The matches of a separator, the
 length measure and whitespace trimming are parameters.
 */
module TextPieces {
  import opened Common

  datatype Keep = KeepNone | KeepStart | KeepEnd
  type Span = (nat, nat)

  datatype Config = Config(
    chunkSize: int,
    chunkOverlap: int,
    length: string -> nat,
    keep: Keep,
    trim: string -> string,
    find: (string, string) -> seq<Span>)
  {
    function Normalize(): Option<Config> {
      var size := if chunkSize == 0 then 4000 else chunkSize;
      if size <= 0 || chunkOverlap < 0 || chunkOverlap > size then None
      else Some(this.(chunkSize := size))
    }

    ghost predicate Valid() {
      && 0 <= chunkOverlap <= chunkSize && 0 < chunkSize
      && trim("") == ""
      && forall text, separator :: InOrder(find(text, separator), |text|)
    }

    /** The length of a concatenation is the sum, and only the empty text has length 0. */
    ghost predicate Additive() {
      && (forall a: string, b: string :: length(a + b) == length(a) + length(b))
      && (forall s: string :: s != "" ==> length(s) >= 1)
    }

    ghost predicate NoStrip() { forall s :: trim(s) == s }
  }

  /** Leftmost, non-overlapping matches, as a regular expression engine reports them. */
  ghost predicate InOrder(matches: seq<Span>, size: nat) {
    && (forall k :: 0 <= k < |matches| ==> matches[k].0 <= matches[k].1 <= size)
    && (forall k :: 0 <= k < |matches| - 1 ==> matches[k].1 <= matches[k + 1].0)
  }

  function Concat(parts: seq<string>): string {
    if parts == [] then "" else parts[0] + Concat(parts[1..])
  }

  lemma {:induction false} ConcatAppend(a: seq<string>, b: seq<string>)
    ensures Concat(a + b) == Concat(a) + Concat(b)
  {
    if a == [] {
      assert a + b == b;
    } else {
      assert (a + b)[1..] == a[1..] + b;
      assert Concat(a + b) == a[0] + Concat(a[1..] + b) && Concat(a) == a[0] + Concat(a[1..]);
      hide Concat;
      ConcatAppend(a[1..], b);
      Associative(a[0], Concat(a[1..]), Concat(b));
    }
  }

  // ----- cutting at matches -----

  function PieceEnd(keep: Keep, match_: Span): nat { if keep == KeepEnd then match_.1 else match_.0 }
  function PieceStart(keep: Keep, match_: Span): nat { if keep == KeepStart then match_.0 else match_.1 }

  /** Where the pieces lie: between match starts, between match ends, or between the matches. */
  function Cuts(matches: seq<Span>, keep: Keep, start: nat, size: nat): (cuts: seq<Span>)
    ensures |cuts| == |matches| + 1
  {
    if matches == [] then [(start, size)]
    else [(start, PieceEnd(keep, matches[0]))] + Cuts(matches[1..], keep, PieceStart(keep, matches[0]), size)
  }

  ghost predicate Within(cuts: seq<Span>, size: nat) {
    forall k :: 0 <= k < |cuts| ==> cuts[k].0 <= cuts[k].1 <= size
  }

  /** The non-empty slices of text. */
  function Slices(text: string, cuts: seq<Span>): seq<string>
    requires Within(cuts, |text|)
  {
    if cuts == [] then []
    else (if cuts[0].0 < cuts[0].1 then [text[cuts[0].0..cuts[0].1]] else []) + Slices(text, cuts[1..])
  }

  lemma {:induction false} CutsWithin(matches: seq<Span>, keep: Keep, start: nat, size: nat)
    requires InOrder(matches, size) && start <= size
    requires matches != [] ==> start <= PieceEnd(keep, matches[0])
    ensures Within(Cuts(matches, keep, start, size), size)
  {
    if matches != [] {
      var rest := matches[1..];
      if rest != [] {
        assert rest[0] == matches[1] && matches[0].1 <= matches[1].0;
      }
      CutsWithin(rest, keep, PieceStart(keep, matches[0]), size);
    }
  }

  lemma {:induction false} SlicesAppend(text: string, a: seq<Span>, b: seq<Span>)
    requires Within(a, |text|) && Within(b, |text|)
    ensures Slices(text, a + b) == Slices(text, a) + Slices(text, b)
  {
    if a == [] {
      assert a + b == b;
    } else {
      var head := if a[0].0 < a[0].1 then [text[a[0].0..a[0].1]] else [];
      assert (a + b)[1..] == a[1..] + b && (a + b)[0] == a[0];
      assert Slices(text, a + b) == head + Slices(text, a[1..] + b);
      assert Slices(text, a) == head + Slices(text, a[1..]);
      hide Slices;
      SlicesAppend(text, a[1..], b);
      Associative(head, Slices(text, a[1..]), Slices(text, b));
    }
  }

  lemma SliceOne(text: string, cut: Span)
    requires cut.0 <= cut.1 <= |text|
    ensures Slices(text, [cut]) == if cut.0 < cut.1 then [text[cut.0..cut.1]] else []
  {
    assert [cut][1..] == [];
  }

  lemma SlicesExtend(text: string, cuts: seq<Span>, cut: Span)
    requires Within(cuts, |text|) && cut.0 <= cut.1 <= |text|
    ensures Within(cuts + [cut], |text|)
    ensures Slices(text, cuts + [cut]) == Slices(text, cuts) + if cut.0 < cut.1 then [text[cut.0..cut.1]] else []
  {
    SliceOne(text, cut);
    SlicesAppend(text, cuts, [cut]);
  }

  lemma ConcatOne(s: string)
    ensures Concat([s]) == s
  {
    assert Concat([s]) == s + Concat([]);
  }

  /** With the separators kept the pieces are the text. */
  lemma {:induction false} KeepingLosesNothing(text: string, matches: seq<Span>, keep: Keep, start: nat)
    requires InOrder(matches, |text|) && start <= |text| && keep != KeepNone
    requires matches != [] ==> start <= matches[0].0
    ensures Within(Cuts(matches, keep, start, |text|), |text|)
    ensures Concat(Slices(text, Cuts(matches, keep, start, |text|))) == text[start..]
  {
    CutsWithin(matches, keep, start, |text|);
    if matches == [] {
      assert Cuts(matches, keep, start, |text|) == [(start, |text|)] && text[start..|text|] == text[start..];
      SliceOne(text, (start, |text|));
      ConcatOne(text[start..]);
    } else {
      var next := PieceStart(keep, matches[0]);
      var rest := matches[1..];
      if rest != [] {
        assert rest[0] == matches[1] && matches[0].1 <= matches[1].0;
      }
      KeepingLosesNothing(text, rest, keep, next);
      var cut, more := (start, next), Cuts(rest, keep, next, |text|);
      assert Cuts(matches, keep, start, |text|) == [cut] + more;
      hide Cuts, InOrder;
      SliceOne(text, cut);
      ConcatOne(text[start..next]);
      SlicesAppend(text, [cut], more);
      hide Slices;
      ConcatAppend(Slices(text, [cut]), Slices(text, more));
      hide Concat;
      SplitAt(text, start, next);
    }
  }

  lemma SplitAt(text: string, start: nat, next: nat)
    requires start <= next <= |text|
    ensures text[start..next] + text[next..] == text[start..]
  {
  }

  lemma {:induction false} SlicesNonEmpty(text: string, cuts: seq<Span>)
    requires Within(cuts, |text|)
    ensures "" !in Slices(text, cuts)
  {
    if cuts != [] {
      SlicesNonEmpty(text, cuts[1..]);
    }
  }

  /** The slices at every cut, the empty ones included. */
  function All(text: string, cuts: seq<Span>): (parts: seq<string>)
    requires Within(cuts, |text|)
    ensures |parts| == |cuts|
  {
    if cuts == [] then [] else [text[cuts[0].0..cuts[0].1]] + All(text, cuts[1..])
  }

  function NonEmpty(parts: seq<string>): seq<string> {
    if parts == [] then []
    else (if parts[0] != "" then [parts[0]] else []) + NonEmpty(parts[1..])
  }

  /** The parts with the texts of the matches put between them. */
  function Weave(parts: seq<string>, text: string, matches: seq<Span>): string
    requires |parts| == |matches| + 1 && Within(matches, |text|)
  {
    if matches == [] then parts[0]
    else parts[0] + text[matches[0].0..matches[0].1] + Weave(parts[1..], text, matches[1..])
  }

  lemma {:induction false} SlicesAreNonEmpty(text: string, cuts: seq<Span>)
    requires Within(cuts, |text|)
    ensures Slices(text, cuts) == NonEmpty(All(text, cuts))
  {
    if cuts != [] {
      SlicesAreNonEmpty(text, cuts[1..]);
      assert All(text, cuts)[1..] == All(text, cuts[1..]);
    }
  }

  /** The slices between the matches, with the matches put back, are the text. */
  lemma {:induction false} WeavingRestores(text: string, matches: seq<Span>, start: nat)
    requires InOrder(matches, |text|) && start <= |text|
    requires matches != [] ==> start <= matches[0].0
    ensures Within(Cuts(matches, KeepNone, start, |text|), |text|) && Within(matches, |text|)
    ensures Weave(All(text, Cuts(matches, KeepNone, start, |text|)), text, matches) == text[start..]
  {
    CutsWithin(matches, KeepNone, start, |text|);
    var cuts := Cuts(matches, KeepNone, start, |text|);
    if matches == [] {
      assert cuts == [(start, |text|)] && cuts[1..] == [] && text[start..|text|] == text[start..];
      assert All(text, cuts) == [text[start..]];
    } else {
      var (from, to) := matches[0];
      var rest := matches[1..];
      if rest != [] {
        assert rest[0] == matches[1] && to <= matches[1].0;
      }
      WeavingRestores(text, rest, to);
      var more := Cuts(rest, KeepNone, to, |text|);
      assert cuts[1..] == more && All(text, cuts)[1..] == All(text, more) && All(text, cuts)[0] == text[start..from];
      assert Weave(All(text, cuts), text, matches) == text[start..from] + text[from..to] + text[to..];
      hide Weave, All, Cuts;
      assert text[start..from] + text[from..to] + text[to..] == text[start..];
    }
  }

  function Runes(text: string): seq<string> {
    seq(|text|, i requires 0 <= i < |text| => [text[i]])
  }

  lemma {:induction false} RunesConcat(text: string)
    ensures Concat(Runes(text)) == text
  {
    if text != "" {
      RunesConcat(text[1..]);
      assert Runes(text)[1..] == Runes(text[1..]);
    }
  }

  /** The pieces of text under a separator: its runes for the empty one, the slices at its matches otherwise. */
  ghost function Pieces(cfg: Config, text: string, separator: string): seq<string>
    requires cfg.Valid()
  {
    if separator == "" then Runes(text)
    else
      CutsWithin(cfg.find(text, separator), cfg.keep, 0, |text|);
      Slices(text, Cuts(cfg.find(text, separator), cfg.keep, 0, |text|))
  }

  lemma PiecesFacts(cfg: Config, text: string, separator: string)
    requires cfg.Valid()
    ensures "" !in Pieces(cfg, text, separator)
    ensures separator == "" || cfg.keep != KeepNone ==> Concat(Pieces(cfg, text, separator)) == text
    ensures separator == "" ==> forall p :: p in Pieces(cfg, text, separator) ==> |p| == 1
  {
    if separator == "" {
      RunesConcat(text);
    } else {
      var matches := cfg.find(text, separator);
      CutsWithin(matches, cfg.keep, 0, |text|);
      SlicesNonEmpty(text, Cuts(matches, cfg.keep, 0, |text|));
      if cfg.keep != KeepNone {
        KeepingLosesNothing(text, matches, cfg.keep, 0);
        assert text[0..] == text;
      }
    }
  }

  /**
   parts is what the pieces were before the empty ones were left out, and putting the matches back between them
   gives the text.
   */
  ghost predicate Restores(cfg: Config, text: string, separator: string, parts: seq<string>, pieces: seq<string>) {
    var matches := cfg.find(text, separator);
    && |parts| == |matches| + 1 && Within(matches, |text|)
    && NonEmpty(parts) == pieces && Weave(parts, text, matches) == text
  }

  /** With the separators dropped nothing but separators is lost: put back between the pieces they restore the text. */
  lemma DroppingLosesOnlySeparators(cfg: Config, text: string, separator: string)
    requires cfg.Valid() && separator != "" && cfg.keep == KeepNone
    ensures exists parts :: Restores(cfg, text, separator, parts, Pieces(cfg, text, separator))
  {
    var matches := cfg.find(text, separator);
    WeavingRestores(text, matches, 0);
    var cuts := Cuts(matches, KeepNone, 0, |text|);
    SlicesAreNonEmpty(text, cuts);
    assert text[0..] == text;
    assert Restores(cfg, text, separator, All(text, cuts), Pieces(cfg, text, separator));
  }

  lemma MatchesInOrder(cfg: Config, text: string, separator: string)
    requires cfg.Valid()
    ensures InOrder(cfg.find(text, separator), |text|)
  {
  }

  lemma CutsStep(matches: seq<Span>, keep: Keep, k: nat, start: nat, size: nat)
    requires k < |matches|
    ensures Cuts(matches[k..], keep, start, size)
            == [(start, PieceEnd(keep, matches[k]))] + Cuts(matches[k + 1..], keep, PieceStart(keep, matches[k]), size)
  {
    assert matches[k..][1..] == matches[k + 1..];
  }

  lemma CutsEnd(matches: seq<Span>, keep: Keep, start: nat, size: nat)
    ensures Cuts(matches[|matches|..], keep, start, size) == [(start, size)]
  {
  }

  lemma NoSlices(text: string)
    ensures Within([], |text|)
    ensures Slices(text, []) == []
  {
  }

  lemma MoveOne(whole: seq<Span>, front: seq<Span>, x: Span, rest: seq<Span>)
    requires whole == front + ([x] + rest)
    ensures whole == (front + [x]) + rest
  {
  }

  /** The loop over the matches: start moves from cut to cut. */
  method CutAtMatches(text: string, matches: seq<Span>, keep: Keep) returns (out: seq<string>)
    requires InOrder(matches, |text|)
    ensures Within(Cuts(matches, keep, 0, |text|), |text|)
    ensures out == Slices(text, Cuts(matches, keep, 0, |text|))
  {
    hide Slices, Cuts, Within;
    CutsWithin(matches, keep, 0, |text|);
    ghost var cuts := Cuts(matches, keep, 0, |text|);
    assert matches[0..] == matches && cuts == [] + cuts;
    out := [];
    NoSlices(text);
    var start: nat := 0;
    ghost var cut: seq<Span> := [];
    for k := 0 to |matches|
      invariant start <= |text| && (k < |matches| ==> start <= matches[k].0)
      invariant Within(cut, |text|)
      invariant out == Slices(text, cut)
      invariant cuts == cut + Cuts(matches[k..], keep, start, |text|)
    {
      assert k + 1 < |matches| ==> matches[k].1 <= matches[k + 1].0;
      var before := text[start..matches[k].0];
      var sep := text[matches[k].0..matches[k].1];
      var piece, next := before, matches[k].1;
      match keep {
        case KeepStart =>
          next := if sep != "" then matches[k].0 else matches[k].1;
        case KeepEnd =>
          assert text[start..matches[k].1] == before + sep;
          piece := before + sep;
        case KeepNone =>
      }
      ghost var bounds := (start, PieceEnd(keep, matches[k]));
      assert piece == text[bounds.0..bounds.1] && next == PieceStart(keep, matches[k]);
      SlicesExtend(text, cut, bounds);
      CutsStep(matches, keep, k, start, |text|);
      MoveOne(cuts, cut, bounds, Cuts(matches[k + 1..], keep, next, |text|));
      if piece != "" {
        out := out + [piece];
      }
      start := next;
      cut := cut + [bounds];
    }
    SlicesExtend(text, cut, (start, |text|));
    CutsEnd(matches, keep, start, |text|);
    if start < |text| {
      assert text[start..|text|] == text[start..];
      out := out + [text[start..]];
    }
  }

  method SplitTextWithRegex(cfg: Config, text: string, separator: string) returns (out: seq<string>)
    requires cfg.Valid()
    ensures out == Pieces(cfg, text, separator)
  {
    if separator == "" {
      return seq(|text|, i requires 0 <= i < |text| => [text[i]]);
    }
    var matches := cfg.find(text, separator);
    MatchesInOrder(cfg, text, separator);
    if |matches| == 0 {
      SliceOne(text, (0, |text|));
      assert text[0..|text|] == text;
      return if text == "" then [] else [text];
    }
    out := CutAtMatches(text, matches, cfg.keep);
  }
}
