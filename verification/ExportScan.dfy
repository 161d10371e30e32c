/**
 * The credential scan reads a file in chunks and carries an overlap from one window to the next. A pattern with its
 * exemptions is a rule about a run of bytes, the bytes beside it, and its true position in the file.
 */
module ExportScan {
  import opened Wrappers

  type Bytes = seq<int>

  const OVERLAP := 4096

  predicate AreChunks(chunks: seq<Bytes>) { forall i :: 0 <= i < |chunks| ==> chunks[i] != [] }

  function Concat(chunks: seq<Bytes>): Bytes {
    if chunks == [] then [] else Concat(chunks[..|chunks| - 1]) + chunks[|chunks| - 1]
  }

  /** How much was read before chunk `k`. */
  function Consumed(chunks: seq<Bytes>, k: nat): nat
    requires k <= |chunks|
  {
    |Concat(chunks[..k])|
  }

  function Minimum(a: int, b: int): int { if a < b then a else b }

  /** `data[-4096:]`. */
  function Tail(data: Bytes): Bytes { data[|data| - Minimum(OVERLAP, |data|)..] }

  function WindowStart(chunks: seq<Bytes>, k: nat): nat
    requires k <= |chunks|
  {
    Consumed(chunks, k) - Minimum(OVERLAP, Consumed(chunks, k))
  }

  /** The run lies wholly in the window of chunk `k`. */
  predicate IsSeenIn(chunks: seq<Bytes>, k: nat, a: int, b: int)
    requires k < |chunks|
  {
    WindowStart(chunks, k) <= a && b <= Consumed(chunks, k + 1)
  }

  predicate IsSeen(chunks: seq<Bytes>, a: int, b: int) {
    exists k :: 0 <= k < |chunks| && IsSeenIn(chunks, k, a, b)
  }

  lemma {:induction false} PrefixConcat(chunks: seq<Bytes>, k: nat)
    requires k <= |chunks|
    ensures Consumed(chunks, k) <= |Concat(chunks)| && Concat(chunks[..k]) == Concat(chunks)[..Consumed(chunks, k)]
    decreases |chunks|
  {
    if k == |chunks| {
      assert chunks[..k] == chunks;
    } else {
      var front := chunks[..|chunks| - 1];
      PrefixConcat(front, k);
      assert front[..k] == chunks[..k];
    }
  }

  lemma ConsumedStep(chunks: seq<Bytes>, k: nat)
    requires k < |chunks|
    ensures Consumed(chunks, k + 1) == Consumed(chunks, k) + |chunks[k]|
    ensures Concat(chunks[..k + 1]) == Concat(chunks[..k]) + chunks[k]
  {
    assert chunks[..k + 1][..k] == chunks[..k];
  }

  lemma {:induction false} ConsumedGrows(chunks: seq<Bytes>, j: nat, k: nat)
    requires j <= k <= |chunks|
    ensures Consumed(chunks, j) <= Consumed(chunks, k) && WindowStart(chunks, j) <= WindowStart(chunks, k)
    decreases k
  {
    if j < k {
      ConsumedGrows(chunks, j, k - 1);
      ConsumedStep(chunks, k - 1);
    }
  }

  /** The chunk that holds a byte. */
  lemma {:induction false} ChunkOf(chunks: seq<Bytes>, n: nat, at: int) returns (k: nat)
    requires n <= |chunks| && 0 <= at < Consumed(chunks, n)
    ensures k < n && Consumed(chunks, k) <= at < Consumed(chunks, k + 1)
  {
    k := n;
    while at < Consumed(chunks, k)
      invariant k <= n && (k < n ==> at < Consumed(chunks, k + 1))
      decreases k
    {
      k := k - 1;
    }
  }

  /** A run is seen exactly when it starts at most 4096 bytes before the chunk that holds its last byte. */
  lemma SeenExactly(chunks: seq<Bytes>, a: int, b: int, k: nat)
    requires 0 <= a < b <= |Concat(chunks)|
    requires k < |chunks| && Consumed(chunks, k) < b <= Consumed(chunks, k + 1)
    ensures IsSeen(chunks, a, b) <==> Consumed(chunks, k) - 4096 <= a
  {
    if IsSeen(chunks, a, b) {
      var j :| 0 <= j < |chunks| && IsSeenIn(chunks, j, a, b);
      if j < k {
        ConsumedGrows(chunks, j + 1, k);
      }
      ConsumedGrows(chunks, k, j);
    }
    if Consumed(chunks, k) - 4096 <= a {
      assert IsSeenIn(chunks, k, a, b);
    }
  }

  /** However the file is cut, every run of at most 4097 bytes is seen. */
  lemma ShortRunsAreSeen(chunks: seq<Bytes>, a: int, b: int)
    requires 0 <= a < b <= |Concat(chunks)| && b - a <= 4097
    ensures IsSeen(chunks, a, b)
  {
    assert chunks[..|chunks|] == chunks;
    var k := ChunkOf(chunks, |chunks|, b - 1);
    SeenExactly(chunks, a, b, k);
  }

  function Singles(file: Bytes): (chunks: seq<Bytes>)
    ensures |chunks| == |file| && AreChunks(chunks)
  {
    if file == [] then [] else Singles(file[..|file| - 1]) + [[file[|file| - 1]]]
  }

  lemma {:induction false} SinglesConcat(file: Bytes)
    ensures Concat(Singles(file)) == file
  {
    if file != [] {
      SinglesConcat(file[..|file| - 1]);
      var s := Singles(file);
      assert s[..|s| - 1] == Singles(file[..|file| - 1]);
    }
  }

  lemma {:induction false} SinglesConsume(file: Bytes, k: nat)
    requires k <= |file|
    ensures Consumed(Singles(file), k) == k
  {
    var s := Singles(file);
    if k > 0 {
      SinglesConsume(file, k - 1);
      ConsumedStep(s, k - 1);
      SingleLengths(file, k - 1);
    }
  }

  lemma {:induction false} SingleLengths(file: Bytes, i: nat)
    requires i < |file|
    ensures |Singles(file)[i]| == 1
  {
    if i < |file| - 1 {
      SingleLengths(file[..|file| - 1], i);
    }
  }

  /** Read a byte at a time, the scan sees a run if and only if it has at most 4097 bytes. */
  lemma {:induction false} BytewiseExactly(file: Bytes, a: int, b: int)
    requires 0 <= a < b <= |file|
    ensures IsSeen(Singles(file), a, b) <==> b - a <= 4097
  {
    hide Concat, Singles, IsSeen;
    SinglesConcat(file);
    SinglesConsume(file, b - 1);
    SinglesConsume(file, b);
    SeenExactly(Singles(file), a, b, b - 1);
  }

  // The blocks that the exporter reads.

  const BLOCK := 1024 * 1024

  /** `stream.read(1024 * 1024)` until nothing is left. */
  function Blocks(file: Bytes): (chunks: seq<Bytes>)
    ensures AreChunks(chunks)
  {
    if file == [] then []
    else if |file| <= BLOCK then [file]
    else [file[..BLOCK]] + Blocks(file[BLOCK..])
  }

  lemma {:induction false} ConcatFirst(first: Bytes, chunks: seq<Bytes>)
    ensures Concat([first] + chunks) == first + Concat(chunks)
  {
    if chunks == [] {
      assert [first] + chunks == [first] && [first][..0] == [];
      assert first + [] == first == [] + first;
    } else {
      var front := chunks[..|chunks| - 1];
      ConcatFirst(first, front);
      var all := [first] + chunks;
      assert all[..|all| - 1] == [first] + front && all[|all| - 1] == chunks[|chunks| - 1];
      assert first + (Concat(front) + chunks[|chunks| - 1]) == first + Concat(front) + chunks[|chunks| - 1];
    }
  }

  lemma {:induction false} BlocksConcat(file: Bytes)
    ensures Concat(Blocks(file)) == file
  {
    if file != [] {
      if |file| <= BLOCK {
        assert [file][..0] == [];
      } else {
        BlocksConcat(file[BLOCK..]);
        ConcatFirst(file[..BLOCK], Blocks(file[BLOCK..]));
        assert file[..BLOCK] + file[BLOCK..] == file;
      }
    }
  }

  /** At every boundary with 4097 bytes before it, the run of 4098 bytes that ends one byte after it is missed. */
  lemma BoundaryRunIsMissed(chunks: seq<Bytes>, k: nat)
    requires AreChunks(chunks) && k < |chunks| && Consumed(chunks, k) >= 4097
    ensures Consumed(chunks, k) < |Concat(chunks)|
    ensures !IsSeen(chunks, Consumed(chunks, k) - 4097, Consumed(chunks, k) + 1)
  {
    hide Concat, IsSeen;
    ConsumedStep(chunks, k);
    PrefixConcat(chunks, k + 1);
    SeenExactly(chunks, Consumed(chunks, k) - 4097, Consumed(chunks, k) + 1, k);
  }

  lemma OneChunk(chunk: Bytes)
    ensures Concat([chunk]) == chunk
  {
    assert [chunk][..0] == [] && [] + chunk == chunk;
  }

  lemma FirstBlock(file: Bytes)
    requires |file| > 1_048_576
    ensures |Blocks(file)| > 1 && Consumed(Blocks(file), 1) == 1_048_576
  {
    var first, rest := file[..BLOCK], Blocks(file[BLOCK..]);
    hide Concat;
    assert |first| == BLOCK;
    var chunks := [first] + rest;
    assert chunks[..1] == [first];
    OneChunk(first);
  }

  /** In every file longer than one block, a run of 4098 bytes across the first block boundary is missed. */
  lemma LongRunsCanBeMissed(file: Bytes)
    requires |file| > 1_048_576
    ensures Concat(Blocks(file)) == file && !IsSeen(Blocks(file), 1_048_576 - 4097, 1_048_576 + 1)
  {
    hide IsSeen, Concat, Consumed;
    BlocksConcat(file);
    FirstBlock(file);
    BoundaryRunIsMissed(Blocks(file), 1);
  }

  // The scan.

  /** A run of bytes with the bytes beside it, as far as there are any: a word boundary looks that far. */
  datatype Match = Match(before: Option<int>, run: Bytes, after: Option<int>)

  function MatchAt(data: Bytes, i: int, j: int): Match
    requires 0 <= i <= j <= |data|
  {
    Match(
      if i == 0 then None else Some(data[i - 1]),
      data[i..j],
      if j == |data| then None else Some(data[j]))
  }

  /** Whether a match is refused at a true position in the file: it fits a pattern and nothing exempts it. */
  type Rule = (Match, int, int) -> bool

  /** A run at `a..b` of the file that a scan of the whole file refuses. */
  predicate IsBad(file: Bytes, a: int, b: int, rule: Rule) {
    0 <= a < b <= |file| && rule(MatchAt(file, a, b), a, b)
  }

  /** A refused run at `i..j` of a window that starts at `offset`. */
  predicate IsHit(data: Bytes, offset: int, i: int, j: int, rule: Rule) {
    0 <= i < j <= |data| && rule(MatchAt(data, i, j), offset + i, offset + j)
  }

  predicate HasHit(data: Bytes, offset: int, rule: Rule) {
    exists i, j :: 0 <= i < j <= |data| && IsHit(data, offset, i, j, rule)
  }

  lemma TailAppend(before: Bytes, chunk: Bytes)
    ensures Tail(before) + chunk == (before + chunk)[|before| - Minimum(OVERLAP, |before|)..]
    ensures Tail(Tail(before) + chunk) == Tail(before + chunk)
  {
    var n := |before| - Minimum(OVERLAP, |before|);
    assert before == before[..n] + before[n..];
    assert (before + chunk)[n..] == before[n..] + chunk;
  }

  /** What window `k` holds, in terms of the file. */
  lemma WindowIsSlice(chunks: seq<Bytes>, k: nat, overlap: Bytes)
    requires k < |chunks| && overlap == Tail(Concat(chunks[..k]))
    ensures var offset, stop := WindowStart(chunks, k), Consumed(chunks, k + 1);
            offset == Consumed(chunks, k) - |overlap| && offset <= stop <= |Concat(chunks)| &&
            overlap + chunks[k] == Concat(chunks)[offset..stop]
    ensures Tail(overlap + chunks[k]) == Tail(Concat(chunks[..k + 1]))
  {
    var before, after, all := Concat(chunks[..k]), Concat(chunks[..k + 1]), Concat(chunks);
    ConsumedStep(chunks, k);
    PrefixConcat(chunks, k + 1);
    hide Concat;
    TailAppend(before, chunks[k]);
    var offset := WindowStart(chunks, k);
    assert after[offset..] == all[offset..|after|];
  }

  lemma SliceOfSlice(file: Bytes, offset: nat, stop: nat, i: int, j: int)
    requires offset <= stop <= |file| && 0 <= i <= j <= stop - offset
    ensures file[offset..stop][i..j] == file[offset + i..offset + j]
  {
    var x, y := file[offset..stop][i..j], file[offset + i..offset + j];
    assert |x| == |y| == j - i;
    forall k | 0 <= k < j - i ensures x[k] == y[k] {
      assert x[k] == file[offset..stop][i + k] == file[offset + (i + k)];
      assert y[k] == file[offset + i + k];
    }
  }

  /** The part of the file that the window of chunk `k` shows. */
  function Window(chunks: seq<Bytes>, k: nat): (shown: Bytes)
    requires k < |chunks|
    ensures |shown| == Consumed(chunks, k + 1) - WindowStart(chunks, k)
  {
    PrefixConcat(chunks, k);
    PrefixConcat(chunks, k + 1);
    ConsumedStep(chunks, k);
    Concat(chunks)[WindowStart(chunks, k)..Consumed(chunks, k + 1)]
  }

  /** The window of chunk `k` refuses the run at `a..b` of the file. */
  predicate ShowsHit(chunks: seq<Bytes>, k: nat, a: int, b: int, rule: Rule)
    requires k < |chunks|
  {
    var start := WindowStart(chunks, k);
    IsHit(Window(chunks, k), start, a - start, b - start, rule)
  }

  ghost predicate IsRefused(chunks: seq<Bytes>, n: nat, rule: Rule)
    requires n <= |chunks|
  {
    exists k :: 0 <= k < n && HasHit(Window(chunks, k), WindowStart(chunks, k), rule)
  }

  /** The scan refuses the file exactly when some window has a refused match. */
  method Scan(chunks: seq<Bytes>, rule: Rule) returns (refused: bool)
    ensures refused <==> IsRefused(chunks, |chunks|, rule)
  {
    hide HasHit, Concat, Consumed, WindowStart, Tail;
    var overlap: Bytes, consumed := [], 0;
    StartOfFile(chunks);
    for k := 0 to |chunks|
      invariant consumed == Consumed(chunks, k) && overlap == Tail(Concat(chunks[..k]))
      invariant !IsRefused(chunks, k, rule)
    {
      var data, offset := overlap + chunks[k], consumed - |overlap|;
      WindowIsSlice(chunks, k, overlap);
      if HasHit(data, offset, rule) {
        return true;
      }
      ConsumedStep(chunks, k);
      overlap := Tail(data);
      consumed := consumed + |chunks[k]|;
    }
    refused := false;
  }

  lemma StartOfFile(chunks: seq<Bytes>)
    ensures Consumed(chunks, 0) == 0 && Tail(Concat(chunks[..0])) == []
  {
  }

  // The windows against the whole file.

  /** The run stands at an edge of window `k` that is not an edge of the file. */
  predicate IsAtEdge(chunks: seq<Bytes>, k: nat, a: int, b: int)
    requires k < |chunks|
  {
    (a == WindowStart(chunks, k) && a > 0) || (b == Consumed(chunks, k + 1) && b < |Concat(chunks)|)
  }

  lemma InnerMatch(file: Bytes, offset: nat, stop: nat, a: int, b: int)
    requires offset <= a <= b <= stop <= |file|
    ensures MatchAt(file[offset..stop], a - offset, b - offset).run == file[a..b]
    ensures (a == offset ==> a == 0) && (b == stop ==> b == |file|) ==>
        MatchAt(file[offset..stop], a - offset, b - offset) == MatchAt(file, a, b)
  {
    SliceOfSlice(file, offset, stop, a - offset, b - offset);
  }

  /** A pattern that does not look beside its match. */
  ghost predicate IgnoresNeighbours(rule: Rule) {
    forall m: Match, a: int, b: int :: rule(m, a, b) == rule(Match(None, m.run, None), a, b)
  }

  /** Away from its edges a window finds just what a scan of the whole file finds there. */
  lemma HitIsBad(chunks: seq<Bytes>, k: nat, a: int, b: int, rule: Rule)
    requires k < |chunks| && IsSeenIn(chunks, k, a, b) && (!IsAtEdge(chunks, k, a, b) || IgnoresNeighbours(rule))
    ensures ShowsHit(chunks, k, a, b, rule) <==> IsBad(Concat(chunks), a, b, rule)
  {
    hide Concat, Consumed, WindowStart;
    PrefixConcat(chunks, k + 1);
    if a < b {
      var file, start := Concat(chunks), WindowStart(chunks, k);
      InnerMatch(file, start, Consumed(chunks, k + 1), a, b);
      var inner, outer := MatchAt(Window(chunks, k), a - start, b - start), MatchAt(file, a, b);
      if IgnoresNeighbours(rule) {
        assert rule(inner, a, b) == rule(Match(None, inner.run, None), a, b);
        assert rule(outer, a, b) == rule(Match(None, outer.run, None), a, b);
      }
    }
  }

  lemma HitIsSeen(chunks: seq<Bytes>, k: nat, rule: Rule) returns (a: int, b: int)
    requires k < |chunks| && HasHit(Window(chunks, k), WindowStart(chunks, k), rule)
    ensures IsSeenIn(chunks, k, a, b) && ShowsHit(chunks, k, a, b, rule)
  {
    var start := WindowStart(chunks, k);
    hide Concat, Consumed;
    var i, j :| 0 <= i < j <= |Window(chunks, k)| && IsHit(Window(chunks, k), start, i, j, rule);
    a, b := start + i, start + j;
    assert a - start == i && b - start == j;
  }

  /** A refused run of at most 4095 bytes is never missed: some window shows it with the bytes beside it. */
  lemma NothingIsMissed(chunks: seq<Bytes>, a: int, b: int, rule: Rule)
    requires IsBad(Concat(chunks), a, b, rule) && b - a <= 4095
    ensures IsRefused(chunks, |chunks|, rule)
  {
    hide Concat, Consumed, WindowStart, HasHit;
    var wide, end := if a == 0 then 0 else a - 1, Minimum(b + 1, |Concat(chunks)|);
    ShortRunsAreSeen(chunks, wide, end);
    var k :| 0 <= k < |chunks| && IsSeenIn(chunks, k, wide, end);
    HitIsBad(chunks, k, a, b, rule);
    HitsAreHad(chunks, k, a, b, rule);
  }

  lemma HitsAreHad(chunks: seq<Bytes>, k: nat, a: int, b: int, rule: Rule)
    requires k < |chunks|
    requires ShowsHit(chunks, k, a, b, rule)
    ensures HasHit(Window(chunks, k), WindowStart(chunks, k), rule)
  {
  }

  /** Window `k` refuses a run at its edge, where it cannot see what stands beside it. */
  ghost predicate AlarmsAtEdge(chunks: seq<Bytes>, k: nat, rule: Rule)
    requires k < |chunks|
  {
    exists a, b :: IsSeenIn(chunks, k, a, b) && IsAtEdge(chunks, k, a, b) && ShowsHit(chunks, k, a, b, rule)
  }

  /** For patterns of at most 4095 bytes the scan refuses what a scan of the whole file refuses, and beyond that only
      runs at the edge of a window that does not show what stands beside them. */
  lemma {:induction false} ScansExactly(chunks: seq<Bytes>, rule: Rule)
    requires forall a, b :: IsBad(Concat(chunks), a, b, rule) ==> b - a <= 4095
    ensures IsRefused(chunks, |chunks|, rule) <==>
            (exists a, b :: IsBad(Concat(chunks), a, b, rule)) ||
            (exists k :: 0 <= k < |chunks| && AlarmsAtEdge(chunks, k, rule))
  {
    hide Concat, Consumed, WindowStart, IsSeenIn, IsAtEdge;
    if a, b :| IsBad(Concat(chunks), a, b, rule) {
      NothingIsMissed(chunks, a, b, rule);
    }
    if k :| 0 <= k < |chunks| && AlarmsAtEdge(chunks, k, rule) {
      var a, b :| IsSeenIn(chunks, k, a, b) && IsAtEdge(chunks, k, a, b) && ShowsHit(chunks, k, a, b, rule);
      HitsAreHad(chunks, k, a, b, rule);
    }
    if k :| 0 <= k < |chunks| && HasHit(Window(chunks, k), WindowStart(chunks, k), rule) {
      var a, b := HitIsSeen(chunks, k, rule);
      if IsAtEdge(chunks, k, a, b) {
        assert AlarmsAtEdge(chunks, k, rule);
      } else {
        HitIsBad(chunks, k, a, b, rule);
      }
    }
  }

  /** For patterns of at most 4097 bytes that do not look beside their match, scanning by windows is scanning the
      whole file. */
  lemma {:induction false} WindowsAreEnough(chunks: seq<Bytes>, rule: Rule)
    requires IgnoresNeighbours(rule)
    requires forall a, b :: IsBad(Concat(chunks), a, b, rule) ==> b - a <= 4097
    ensures IsRefused(chunks, |chunks|, rule) <==> exists a, b :: IsBad(Concat(chunks), a, b, rule)
  {
    hide Concat, Consumed, WindowStart;
    if a, b :| IsBad(Concat(chunks), a, b, rule) {
      ShortRunsAreSeen(chunks, a, b);
      var k :| 0 <= k < |chunks| && IsSeenIn(chunks, k, a, b);
      HitIsBad(chunks, k, a, b, rule);
      HitsAreHad(chunks, k, a, b, rule);
    }
    if k :| 0 <= k < |chunks| && HasHit(Window(chunks, k), WindowStart(chunks, k), rule) {
      var a, b := HitIsSeen(chunks, k, rule);
      HitIsBad(chunks, k, a, b, rule);
    }
  }

  // A false alarm: `x` before a word boundary.

  const X := 120

  predicate WordEnd(m: Match) { m.run == [X] && (m.after.None? || m.after.value < 65) }

  const ENDS_IN_X: Rule := (m: Match, a: int, b: int) => WordEnd(m)

  /** The only `x` of the file stands at the end of the first block, and its word goes on. */
  predicate HasCrossingWord(file: Bytes) {
    |file| > BLOCK && file[BLOCK - 1] == X && file[BLOCK] >= 65 &&
    forall i :: 0 <= i < |file| && file[i] == X ==> i == BLOCK - 1
  }

  lemma FirstWindow(file: Bytes)
    requires |file| > BLOCK
    ensures Blocks(file) != [] && WindowStart(Blocks(file), 0) == 0 && Window(Blocks(file), 0) == file[..BLOCK]
  {
    hide Concat;
    FirstBlock(file);
    BlocksConcat(file);
    StartOfFile(Blocks(file));
  }

  lemma NoWordEnds(file: Bytes, a: int, b: int)
    requires HasCrossingWord(file)
    ensures !IsBad(file, a, b, ENDS_IN_X)
  {
    if 0 <= a < b <= |file| && file[a..b] == [X] {
      assert |file[a..b]| == 1 && file[a] == file[a..b][0];
    }
  }

  /** No word of such a file ends in `x`, but its first window ends there, and the file is refused. */
  lemma EdgesCanAlarm(file: Bytes)
    requires HasCrossingWord(file)
    ensures Concat(Blocks(file)) == file && !exists a, b :: IsBad(file, a, b, ENDS_IN_X)
    ensures IsRefused(Blocks(file), |Blocks(file)|, ENDS_IN_X)
  {
    hide Concat, Blocks, HasHit, WindowStart, Window;
    BlocksConcat(file);
    FirstWindow(file);
    LastByteHits(file[..BLOCK]);
    forall a, b ensures !IsBad(file, a, b, ENDS_IN_X) {
      NoWordEnds(file, a, b);
    }
  }

  lemma LastByteHits(data: Bytes)
    requires data != [] && data[|data| - 1] == X
    ensures HasHit(data, 0, ENDS_IN_X)
  {
    assert data[|data| - 1..|data|] == [X];
    assert IsHit(data, 0, |data| - 1, |data|, ENDS_IN_X);
  }
}
