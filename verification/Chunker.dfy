/** Slicing a document into overlapping parent chunks and tiling child chunks,
    and the link from a child to its parent. */
module Chunker {
  import opened Wrappers
  import opened Tokenizer
  import Decimal

  datatype Chunk = Chunk(chunkId: string, content: string, chunkType: string, parentId: Option<string>, tokenCount: nat)

  datatype ChunkSpec = ChunkSpec(parentSize: int, childSize: int, overlap: int)

  const DEFAULT_SPEC := ChunkSpec(500, 150, 100)

  /** The keyword arguments of `_slice_tokens`. */
  datatype Slicing = Slicing(size: int, overlap: int, prefix: string, chunkType: string,
                             parentIdFor: (nat, nat) -> Option<string>)

  predicate IsBlank(tokens: seq<string>, isSpace: char -> bool) {
    forall i | 0 <= i < |Join(tokens)| :: isSpace(Join(tokens)[i])
  }

  predicate Accepted(tokens: seq<string>, w: Slicing, isSpace: char -> bool) {
    !IsBlank(tokens, isSpace) && 0 <= w.overlap < w.size
  }

  function Min(a: int, b: int): int {
    if a <= b then a else b
  }

  /** The window of at most `size` tokens that starts at `start`. */
  function Window(tokens: seq<string>, start: nat, size: nat): seq<string>
    requires start <= |tokens|
  {
    tokens[start..Min(start + size, |tokens|)]
  }

  function Chop(tokens: seq<string>, w: Slicing, i: nat, start: nat): Chunk
    requires 0 <= w.size && start <= |tokens|
  {
    var piece := Window(tokens, start, w.size);
    Chunk(w.prefix + "-" + Decimal.FromNat(i), Join(piece), w.chunkType, w.parentIdFor(i, start), |piece|)
  }

  function Step(w: Slicing): int {
    w.size - w.overlap
  }

  function Start(w: Slicing, i: nat): int {
    i * Step(w)
  }

  /** `chunks[i]` is the window that starts at `Start(w, i)`, and every start
      below the number of tokens has its chunk. */
  ghost predicate Sliced(chunks: seq<Chunk>, tokens: seq<string>, w: Slicing) {
    && 0 <= w.overlap < w.size
    && (forall i: nat :: i < |chunks| <==> Start(w, i) < |tokens|)
    && (forall i: nat | i < |chunks| :: chunks[i] == ChunkAt(tokens, w, i))
  }

  function ChunkAt(tokens: seq<string>, w: Slicing, i: nat): Chunk
    requires 0 <= w.overlap < w.size && Start(w, i) < |tokens|
  {
    StartMono(w, 0, i);
    Chop(tokens, w, i, Start(w, i))
  }

  lemma StartNext(w: Slicing, i: nat)
    ensures Start(w, i + 1) == Start(w, i) + Step(w) && Start(w, 0) == 0
  {
    assert (i + 1) * Step(w) == i * Step(w) + Step(w);
  }

  lemma StartMono(w: Slicing, i: nat, j: nat)
    requires i <= j && Step(w) >= 0
    ensures 0 <= Start(w, i) <= Start(w, j)
  {
    MulMono(0, i, Step(w));
    MulMono(i, j, Step(w));
  }

  lemma MulMono(a: nat, b: nat, k: nat)
    requires a <= b
    ensures a * k <= b * k
    ensures a < b ==> a * k + k <= b * k
  {
    if a < b {
      assert (b - a - 1) * k >= 0;
    }
  }

  /** `_slice_tokens`; an error is the `ValueError` it raises. */
  method SliceTokens(tokens: seq<string>, w: Slicing, isSpace: char -> bool) returns (r: Result<seq<Chunk>>)
    ensures r.Ok? <==> Accepted(tokens, w, isSpace)
    ensures r.Ok? ==> Sliced(r.value, tokens, w)
    ensures r.Err? ==> r.error == if IsBlank(tokens, isSpace) then "empty" else if w.size <= 0 then "size" else "overlap"
  {
    if IsBlank(tokens, isSpace) {
      return Err("empty");
    }
    if w.size <= 0 {
      return Err("size");
    }
    if w.overlap < 0 || w.overlap >= w.size {
      return Err("overlap");
    }
    hide Start, ChunkAt, Chop;
    var step := w.size - w.overlap;
    var chunks, start := [], 0;
    StartNext(w, 0);
    while start < |tokens|
      invariant start == Start(w, |chunks|)
      invariant forall i: nat | i < |chunks| :: Start(w, i) < |tokens| && chunks[i] == ChunkAt(tokens, w, i)
      decreases |tokens| - start
    {
      ChopAt(tokens, w, |chunks|);
      StartNext(w, |chunks|);
      chunks := chunks + [Chop(tokens, w, |chunks|, start)];
      start := start + step;
    }
    forall i: nat | Start(w, i) < |tokens| ensures i < |chunks| {
      if i >= |chunks| {
        StartMono(w, |chunks|, i);
      }
    }
    r := Ok(chunks);
  }

  lemma ChopAt(tokens: seq<string>, w: Slicing, i: nat)
    requires 0 <= w.overlap < w.size && Start(w, i) < |tokens|
    ensures Start(w, i) >= 0 && ChunkAt(tokens, w, i) == Chop(tokens, w, i, Start(w, i))
  {
    StartMono(w, 0, i);
  }

  // ----- slicing loses nothing -----

  /** The number of chunks is the number of tokens over the step, rounded up. */
  lemma ChunkCount(chunks: seq<Chunk>, tokens: seq<string>, w: Slicing)
    requires Sliced(chunks, tokens, w)
    ensures |chunks| == (|tokens| + Step(w) - 1) / Step(w)
  {
    var n, k, step := |tokens|, |chunks|, Step(w);
    assert Start(w, k) >= n;
    if k > 0 {
      assert Start(w, k - 1) < n;
      assert k * step == (k - 1) * step + step;
    }
    CeilUnique(n, step, k);
  }

  lemma CeilUnique(n: nat, step: nat, k: nat)
    requires step > 0 && k * step >= n && (k - 1) * step < n
    ensures k == (n + step - 1) / step
  {
    var q, r := (n + step - 1) / step, (n + step - 1) % step;
    assert q * step + r == n + step - 1;
    assert (k - 1) * step == k * step - step;
    if k < q {
      MulMono(k, q, step);
    } else if k > q {
      MulMono(q, k, step);
    }
  }

  /** No two chunks share an id. */
  lemma ChunkIdsDistinct(chunks: seq<Chunk>, tokens: seq<string>, w: Slicing, i: nat, j: nat)
    requires Sliced(chunks, tokens, w) && i < |chunks| && j < |chunks|
    requires chunks[i].chunkId == chunks[j].chunkId
    ensures i == j
  {
    var p := w.prefix + "-";
    assert chunks[i].chunkId[|p|..] == Decimal.FromNat(i);
    assert chunks[j].chunkId[|p|..] == Decimal.FromNat(j);
    Decimal.FromNatInjective(i, j);
  }

  /** Tokenising a chunk's content gives its window back. */
  lemma ChunkTokens(tokens: seq<string>, w: Slicing, i: nat, isSpace: char -> bool)
    requires 0 <= w.overlap < w.size && Start(w, i) < |tokens| && Alternating(tokens, isSpace)
    ensures Start(w, i) >= 0
    ensures Tokenize(ChunkAt(tokens, w, i).content, isSpace) == Window(tokens, Start(w, i), w.size)
  {
    StartMono(w, 0, i);
    var lo := Start(w, i);
    AlternatingSlice(tokens, isSpace, lo, Min(lo + w.size, |tokens|));
    TokenizeUnique(Window(tokens, lo, w.size), isSpace);
  }

  function Prefix<T>(s: seq<T>, n: nat): seq<T> {
    if n <= |s| then s[..n] else s
  }

  /** The first `step` tokens of every chunk, read off the chunk contents alone. */
  function Rebuild(chunks: seq<Chunk>, step: nat, isSpace: char -> bool): seq<string> {
    if chunks == [] then []
    else Prefix(Tokenize(chunks[0].content, isSpace), step) + Rebuild(chunks[1..], step, isSpace)
  }

  lemma {:induction false} RebuildFrom(chunks: seq<Chunk>, tokens: seq<string>, w: Slicing, isSpace: char -> bool, i: nat)
    requires Sliced(chunks, tokens, w) && Alternating(tokens, isSpace) && i <= |chunks|
    requires 0 <= Start(w, i)
    ensures Rebuild(chunks[i..], Step(w), isSpace) == tokens[Min(Start(w, i), |tokens|)..]
    decreases |chunks| - i
  {
    hide Start, Window, Prefix;
    if i == |chunks| {
      assert Start(w, i) >= |tokens|;
    } else {
      var lo, step := Start(w, i), Step(w);
      ChunkTokens(tokens, w, i, isSpace);
      StartNext(w, i);
      RebuildFrom(chunks, tokens, w, isSpace, i + 1);
      assert chunks[i..][0] == chunks[i] && chunks[i..][1..] == chunks[i + 1..];
      WindowPrefix(tokens, lo, w.size, step);
    }
  }

  lemma WindowPrefix(tokens: seq<string>, lo: nat, size: nat, step: nat)
    requires lo <= |tokens| && step <= size
    ensures Prefix(Window(tokens, lo, size), step) + tokens[Min(lo + step, |tokens|)..] == tokens[lo..]
  {
  }

  /** Slicing is lossless: the first size - overlap tokens of the chunks, in
      order, are the tokens of the text. */
  lemma SlicingLossless(text: string, chunks: seq<Chunk>, w: Slicing, isSpace: char -> bool)
    requires Sliced(chunks, Tokenize(text, isSpace), w)
    ensures Rebuild(chunks, Step(w), isSpace) == Tokenize(text, isSpace)
    ensures Join(Rebuild(chunks, Step(w), isSpace)) == text
  {
    TokenizeAlternates(text, isSpace);
    RebuildFrom(chunks, Tokenize(text, isSpace), w, isSpace, 0);
    assert chunks[0..] == chunks;
    TokenizeJoin(text, isSpace);
  }

  /** Adjacent chunks share `overlap` tokens: what the next one starts with is
      what this one ends with, as far as both go. */
  lemma AdjacentShare(chunks: seq<Chunk>, tokens: seq<string>, w: Slicing, isSpace: char -> bool, i: nat)
    requires Sliced(chunks, tokens, w) && Alternating(tokens, isSpace) && i + 1 < |chunks|
    ensures
      var a, b := Tokenize(chunks[i].content, isSpace), Tokenize(chunks[i + 1].content, isSpace);
      && Step(w) <= |a| <= w.size
      && a[Step(w)..] == Prefix(b, w.overlap)
  {
    hide Start, Window, Prefix, ChunkAt;
    assert Start(w, i) < |tokens| && Start(w, i + 1) < |tokens|;
    StartNext(w, i);
    ChunkTokens(tokens, w, i, isSpace);
    ChunkTokens(tokens, w, i + 1, isSpace);
    WindowsShare(tokens, Start(w, i), w.size, Step(w));
  }

  lemma WindowsShare(tokens: seq<string>, lo: nat, size: nat, step: nat)
    requires lo + step < |tokens| && 0 < step <= size
    ensures
      var a, b := Window(tokens, lo, size), Window(tokens, lo + step, size);
      step <= |a| <= size && a[step..] == Prefix(b, size - step)
  {
    var a, b := Window(tokens, lo, size), Window(tokens, lo + step, size);
    var tail, head := a[step..], Prefix(b, size - step);
    assert |tail| == |head|;
    assert forall k | 0 <= k < |tail| :: tail[k] == tokens[lo + step + k] == head[k];
  }

  function Contents(chunks: seq<Chunk>): string {
    if chunks == [] then [] else chunks[0].content + Contents(chunks[1..])
  }

  lemma {:induction false} ContentsFrom(chunks: seq<Chunk>, tokens: seq<string>, w: Slicing, i: nat)
    requires Sliced(chunks, tokens, w) && w.overlap == 0 && i <= |chunks|
    requires 0 <= Start(w, i)
    ensures Contents(chunks[i..]) == Join(tokens[Min(Start(w, i), |tokens|)..])
    decreases |chunks| - i
  {
    hide Start, Window, ChunkAt;
    if i == |chunks| {
      assert Start(w, i) >= |tokens|;
      assert tokens[|tokens|..] == [] && chunks[i..] == [];
    } else {
      hide Join;
      var lo := Start(w, i);
      assert lo < |tokens|;
      ChopAt(tokens, w, i);
      StartNext(w, i);
      ContentsFrom(chunks, tokens, w, i + 1);
      assert chunks[i..][0] == chunks[i] && chunks[i..][1..] == chunks[i + 1..];
      WindowRest(tokens, lo, w.size);
      JoinConcat(Window(tokens, lo, w.size), tokens[Min(lo + w.size, |tokens|)..]);
    }
  }

  lemma WindowRest(tokens: seq<string>, lo: nat, size: nat)
    requires lo <= |tokens|
    ensures Window(tokens, lo, size) + tokens[Min(lo + size, |tokens|)..] == tokens[lo..]
  {
  }

  /** What a chunk says about itself: its id is its place, its kind and its link
      are those asked for, it is never empty, and its token count is the number
      of tokens of its content. */
  lemma ChunkShape(text: string, chunks: seq<Chunk>, w: Slicing, isSpace: char -> bool, i: nat)
    requires Sliced(chunks, Tokenize(text, isSpace), w) && i < |chunks|
    ensures chunks[i].chunkId == w.prefix + "-" + Decimal.FromNat(i) && chunks[i].chunkType == w.chunkType
    ensures chunks[i].tokenCount == |Tokenize(chunks[i].content, isSpace)| && 0 < chunks[i].tokenCount <= w.size
    ensures chunks[i].content != ""
    ensures Start(w, i) >= 0 && chunks[i].parentId == w.parentIdFor(i, Start(w, i))
  {
    TokenizeAlternates(text, isSpace);
    ChunkTokens(Tokenize(text, isSpace), w, i, isSpace);
  }

  /** Every parent can be registered as one, and no child can. */
  lemma KindsOfChunks(text: string, spec: ChunkSpec, parents: seq<Chunk>, children: seq<Chunk>, isSpace: char -> bool, c: Chunk)
    requires Split(Tokenize(text, isSpace), spec, parents, children)
    ensures c in parents ==> c.chunkType == "parent" && c.content != "" && c.parentId == None
    ensures c in children ==> c.chunkType == "child" && c.content != "" && c.parentId.Some?
  {
    if c in parents {
      var i: nat :| i < |parents| && parents[i] == c;
      ChunkShape(text, parents, ParentSlicing(spec), isSpace, i);
    }
    if c in children {
      var i: nat :| i < |children| && children[i] == c;
      ChunkShape(text, children, ChildSlicing(spec), isSpace, i);
    }
  }

  // ----- parents and children of one document -----

  function ParentSlicing(spec: ChunkSpec): Slicing {
    Slicing(spec.parentSize, spec.overlap, "parent", "parent", (i, start) => None)
  }

  function ChildSlicing(spec: ChunkSpec): Slicing {
    Slicing(spec.childSize, 0, "child", "child", (i: nat, start: nat) => Some(ParentIdOf(spec, start)))
  }

  function ParentIdOf(spec: ChunkSpec, start: nat): string {
    "parent-" + if spec.parentSize > 0 then Decimal.FromNat(start / spec.parentSize) else "0"
  }

  method SplitParents(text: string, spec: ChunkSpec, isSpace: char -> bool) returns (r: Result<seq<Chunk>>)
    ensures r.Ok? <==> (exists i :: 0 <= i < |text| && !isSpace(text[i])) && 0 <= spec.overlap < spec.parentSize
    ensures r.Ok? ==> Sliced(r.value, Tokenize(text, isSpace), ParentSlicing(spec))
  {
    TokenizeJoin(text, isSpace);
    r := SliceTokens(Tokenize(text, isSpace), ParentSlicing(spec), isSpace);
  }

  /** Children tile the document: their contents, joined, are the text. */
  method SplitChildren(text: string, spec: ChunkSpec, isSpace: char -> bool) returns (r: Result<seq<Chunk>>)
    ensures r.Ok? <==> (exists i :: 0 <= i < |text| && !isSpace(text[i])) && spec.childSize > 0
    ensures r.Ok? ==> Sliced(r.value, Tokenize(text, isSpace), ChildSlicing(spec))
    ensures r.Ok? ==> Contents(r.value) == text
  {
    TokenizeJoin(text, isSpace);
    r := SliceTokens(Tokenize(text, isSpace), ChildSlicing(spec), isSpace);
    if r.Ok? {
      ContentsFrom(r.value, Tokenize(text, isSpace), ChildSlicing(spec), 0);
      assert r.value[0..] == r.value;
    }
  }

  /** Both splits of one document succeeded. */
  ghost predicate Split(tokens: seq<string>, spec: ChunkSpec, parents: seq<Chunk>, children: seq<Chunk>) {
    Sliced(parents, tokens, ParentSlicing(spec)) && Sliced(children, tokens, ChildSlicing(spec))
  }

  /** Token `t` of the document is in the window of parent `p`. */
  ghost predicate Covers(spec: ChunkSpec, parents: seq<Chunk>, p: nat, t: nat) {
    p < |parents| && Start(ParentSlicing(spec), p) <= t < Start(ParentSlicing(spec), p) + parents[p].tokenCount
  }

  /** Index of the parent the code links child `j` to. */
  function LinkOf(spec: ChunkSpec, j: nat): int
    requires spec.parentSize > 0
  {
    Start(ChildSlicing(spec), j) / spec.parentSize
  }

  lemma DivBounds(a: nat, b: nat)
    requires b > 0
    ensures 0 <= a / b && a == b * (a / b) + a % b && 0 <= a % b < b
    ensures a / b * b <= a < a / b * b + b
  {
  }

  /** Where the linked parent begins, against the child's first token. */
  lemma LinkStart(spec: ChunkSpec, start: nat)
    requires 0 <= spec.overlap < spec.parentSize
    ensures
      var p, begin := start / spec.parentSize, Start(ParentSlicing(spec), start / spec.parentSize);
      && p >= 0 && 0 <= begin <= start
      && (start < begin + spec.parentSize <==> start % spec.parentSize + p * spec.overlap < spec.parentSize)
  {
    var p := start / spec.parentSize;
    DivBounds(start, spec.parentSize);
    MulMono(0, p, spec.overlap);
    MulMono(0, p, spec.parentSize - spec.overlap);
    assert p * (spec.parentSize - spec.overlap) == p * spec.parentSize - p * spec.overlap;
  }

  /** The window of a parent that the number of tokens leaves room for. */
  lemma ParentWindow(tokens: seq<string>, spec: ChunkSpec, parents: seq<Chunk>, p: nat, t: nat)
    requires Sliced(parents, tokens, ParentSlicing(spec))
    requires Start(ParentSlicing(spec), p) <= t < |tokens|
    ensures p < |parents|
    ensures Covers(spec, parents, p, t) <==> t < Start(ParentSlicing(spec), p) + spec.parentSize
  {
    hide Start;
    ChopAt(tokens, ParentSlicing(spec), p);
  }

  /** The linked parent exists, is the only one with that id, and its window
      begins at or before the first token of the child. */
  lemma LinkedParentExists(tokens: seq<string>, spec: ChunkSpec, parents: seq<Chunk>, children: seq<Chunk>, j: nat)
    requires Split(tokens, spec, parents, children) && j < |children|
    ensures 0 <= LinkOf(spec, j) < |parents|
    ensures Start(ParentSlicing(spec), LinkOf(spec, j)) <= Start(ChildSlicing(spec), j)
    ensures forall q: nat | q < |parents| :: children[j].parentId == Some(parents[q].chunkId) <==> q == LinkOf(spec, j)
  {
    hide Start;
    var start := Start(ChildSlicing(spec), j);
    assert start < |tokens|;
    ChopAt(tokens, ChildSlicing(spec), j);
    LinkStart(spec, start);
    var p: nat := start / spec.parentSize;
    ParentWindow(tokens, spec, parents, p, start);
    ChopAt(tokens, ParentSlicing(spec), p);
    assert "parent" + "-" == "parent-";
    assert children[j].parentId == Some(parents[p].chunkId);
    forall q: nat | q < |parents| ensures children[j].parentId == Some(parents[q].chunkId) <==> q == p {
      if children[j].parentId == Some(parents[q].chunkId) {
        ChunkIdsDistinct(parents, tokens, ParentSlicing(spec), q, p);
      }
    }
  }

  /** The linked parent holds the child's first token exactly when the overlaps
      that the link skips over leave room for it. */
  lemma LinkedParentCovers(tokens: seq<string>, spec: ChunkSpec, parents: seq<Chunk>, children: seq<Chunk>, j: nat)
    requires Split(tokens, spec, parents, children) && j < |children|
    ensures 0 <= LinkOf(spec, j)
    ensures
      var start := Start(ChildSlicing(spec), j);
      Covers(spec, parents, LinkOf(spec, j), start)
      <==> start % spec.parentSize + LinkOf(spec, j) * spec.overlap < spec.parentSize
  {
    hide Start;
    var start := Start(ChildSlicing(spec), j);
    assert start < |tokens|;
    ChopAt(tokens, ChildSlicing(spec), j);
    LinkStart(spec, start);
    ParentWindow(tokens, spec, parents, start / spec.parentSize, start);
  }

  /** The whole child is inside its linked parent exactly when its last token is. */
  lemma LinkedParentCoversChild(tokens: seq<string>, spec: ChunkSpec, parents: seq<Chunk>, children: seq<Chunk>, j: nat)
    requires Split(tokens, spec, parents, children) && j < |children|
    ensures 0 <= LinkOf(spec, j)
    ensures
      var start := Start(ChildSlicing(spec), j);
      var end := start + children[j].tokenCount;
      && start < end <= |tokens|
      && ((forall t: nat | start <= t < end :: Covers(spec, parents, LinkOf(spec, j), t))
          <==> end <= Start(ParentSlicing(spec), LinkOf(spec, j)) + spec.parentSize)
  {
    hide Start;
    LinkedParentExists(tokens, spec, parents, children, j);
    var start, p := Start(ChildSlicing(spec), j), LinkOf(spec, j);
    assert start < |tokens|;
    ChopAt(tokens, ChildSlicing(spec), j);
    var end := start + children[j].tokenCount;
    forall t: nat | start <= t < end
      ensures Covers(spec, parents, p, t) <==> t < Start(ParentSlicing(spec), p) + spec.parentSize
    {
      ParentWindow(tokens, spec, parents, p, t);
    }
    assert Covers(spec, parents, p, end - 1) <==> end - 1 < Start(ParentSlicing(spec), p) + spec.parentSize;
  }

  /** A child inside its linked parent is a piece of the parent's text, so the
      parent handed on for it contains it. */
  lemma CoveredChildIsQuoted(tokens: seq<string>, spec: ChunkSpec, parents: seq<Chunk>, children: seq<Chunk>, j: nat)
    requires Split(tokens, spec, parents, children) && j < |children|
    requires Start(ChildSlicing(spec), j) + children[j].tokenCount
          <= Start(ParentSlicing(spec), LinkOf(spec, j)) + spec.parentSize
    ensures 0 <= LinkOf(spec, j) < |parents|
    ensures exists before, after :: parents[LinkOf(spec, j)].content == before + children[j].content + after
  {
    hide Start, Join;
    LinkedParentExists(tokens, spec, parents, children, j);
    var p := LinkOf(spec, j);
    assert Start(ChildSlicing(spec), j) < |tokens| && Start(ParentSlicing(spec), p) < |tokens|;
    ChopAt(tokens, ChildSlicing(spec), j);
    ChopAt(tokens, ParentSlicing(spec), p);
    var lo, hi := Start(ChildSlicing(spec), j), Start(ChildSlicing(spec), j) + children[j].tokenCount;
    var begin := Start(ParentSlicing(spec), p);
    JoinInner(tokens, begin, lo, hi, Min(begin + spec.parentSize, |tokens|));
    var before, after := Join(tokens[begin..lo]), Join(tokens[hi..Min(begin + spec.parentSize, |tokens|)]);
    assert parents[p].content == before + children[j].content + after;
  }

  lemma JoinInner(tokens: seq<string>, a: nat, b: nat, c: nat, d: nat)
    requires a <= b <= c <= d <= |tokens|
    ensures Join(tokens[a..d]) == Join(tokens[a..b]) + Join(tokens[b..c]) + Join(tokens[c..d])
  {
    hide Join;
    assert tokens[a..d] == tokens[a..b] + tokens[b..c] + tokens[c..d];
    JoinConcat(tokens[a..b], tokens[b..c]);
    JoinConcat(tokens[a..b] + tokens[b..c], tokens[c..d]);
  }

  /** Past the point where the skipped overlaps add up to a whole window, no
      child is ever linked to a parent that holds its first token. */
  lemma FarLinksNeverCover(tokens: seq<string>, spec: ChunkSpec, parents: seq<Chunk>, children: seq<Chunk>, j: nat)
    requires Split(tokens, spec, parents, children) && j < |children|
    requires LinkOf(spec, j) * spec.overlap >= spec.parentSize
    ensures 0 <= LinkOf(spec, j) && !Covers(spec, parents, LinkOf(spec, j), Start(ChildSlicing(spec), j))
  {
    LinkedParentCovers(tokens, spec, parents, children, j);
  }

  /** Dividing by the step instead of the size always finds a covering parent. */
  lemma StepLinkCovers(tokens: seq<string>, spec: ChunkSpec, parents: seq<Chunk>, children: seq<Chunk>, j: nat)
    requires Split(tokens, spec, parents, children) && j < |children|
    ensures
      var start := Start(ChildSlicing(spec), j);
      start >= 0 && Covers(spec, parents, start / Step(ParentSlicing(spec)), start)
  {
    var start, step := Start(ChildSlicing(spec), j), Step(ParentSlicing(spec));
    assert start < |tokens|;
    ChopAt(tokens, ChildSlicing(spec), j);
    DivBounds(start, step);
    ParentWindow(tokens, spec, parents, start / step, start);
  }

  ghost predicate WhollyCovered(spec: ChunkSpec, parents: seq<Chunk>, children: seq<Chunk>, j: nat)
    requires spec.parentSize > 0 && j < |children| && LinkOf(spec, j) >= 0
  {
    var start := Start(ChildSlicing(spec), j);
    forall t: nat | start <= t < start + children[j].tokenCount :: Covers(spec, parents, LinkOf(spec, j), t)
  }

  function DefaultStart(j: nat): nat {
    150 * j
  }

  lemma DefaultCovers(tokens: seq<string>, parents: seq<Chunk>, children: seq<Chunk>, j: nat)
    requires Split(tokens, DEFAULT_SPEC, parents, children) && j < |children|
    ensures Start(ChildSlicing(DEFAULT_SPEC), j) == DefaultStart(j) && LinkOf(DEFAULT_SPEC, j) == DefaultStart(j) / 500
    ensures Covers(DEFAULT_SPEC, parents, LinkOf(DEFAULT_SPEC, j), DefaultStart(j))
       <==> DefaultStart(j) % 500 + DefaultStart(j) / 500 * 100 < 500
    ensures DefaultStart(j) < |tokens|
  {
    assert Start(ChildSlicing(DEFAULT_SPEC), j) < |tokens|;
    LinkedParentCovers(tokens, DEFAULT_SPEC, parents, children, j);
  }

  /** With the default sizes every child's first token is in its linked parent
      if and only if the document has at most 900 tokens; the first child to
      miss it is the seventh. */
  lemma DefaultLinksExactly(tokens: seq<string>, parents: seq<Chunk>, children: seq<Chunk>)
    requires Split(tokens, DEFAULT_SPEC, parents, children)
    ensures (forall j: nat | j < |children| ::
               LinkOf(DEFAULT_SPEC, j) >= 0 && Covers(DEFAULT_SPEC, parents, LinkOf(DEFAULT_SPEC, j), DefaultStart(j)))
       <==> |tokens| <= 900
  {
    if |tokens| <= 900 {
      forall j: nat | j < |children|
        ensures LinkOf(DEFAULT_SPEC, j) >= 0 && Covers(DEFAULT_SPEC, parents, LinkOf(DEFAULT_SPEC, j), DefaultStart(j))
      {
        DefaultCovers(tokens, parents, children, j);
        assert j < 6;
      }
    } else {
      assert Start(ChildSlicing(DEFAULT_SPEC), 6) == 900;
      DefaultCovers(tokens, parents, children, 6);
    }
  }

  /** Every child is in its linked parent as a whole if and only if the document
      has at most 500 tokens: beyond, the child that starts at 450 sticks out. */
  lemma DefaultChildrenExactly(tokens: seq<string>, parents: seq<Chunk>, children: seq<Chunk>)
    requires Split(tokens, DEFAULT_SPEC, parents, children)
    ensures (forall j: nat | j < |children| ::
               LinkOf(DEFAULT_SPEC, j) >= 0 && WhollyCovered(DEFAULT_SPEC, parents, children, j))
       <==> |tokens| <= 500
  {
    hide Start, WhollyCovered;
    if |tokens| <= 500 {
      forall j: nat | j < |children|
        ensures LinkOf(DEFAULT_SPEC, j) >= 0 && WhollyCovered(DEFAULT_SPEC, parents, children, j)
      {
        DefaultCovers(tokens, parents, children, j);
        DefaultChild(tokens, parents, children, j);
      }
    } else {
      FourthChild(tokens, parents, children);
      DefaultChild(tokens, parents, children, 3);
    }
  }

  lemma FourthChild(tokens: seq<string>, parents: seq<Chunk>, children: seq<Chunk>)
    requires Split(tokens, DEFAULT_SPEC, parents, children) && |tokens| > 500
    ensures |children| > 3 && children[3].tokenCount > 50
  {
    assert Start(ChildSlicing(DEFAULT_SPEC), 3) == 450;
    ChopAt(tokens, ChildSlicing(DEFAULT_SPEC), 3);
  }

  /** The children linked to the first parent, and how far they may go. */
  lemma DefaultChild(tokens: seq<string>, parents: seq<Chunk>, children: seq<Chunk>, j: nat)
    requires Split(tokens, DEFAULT_SPEC, parents, children) && j < |children| && DefaultStart(j) < 500
    ensures LinkOf(DEFAULT_SPEC, j) == 0 && DefaultStart(j) + children[j].tokenCount <= |tokens|
    ensures WhollyCovered(DEFAULT_SPEC, parents, children, j) <==> DefaultStart(j) + children[j].tokenCount <= 500
  {
    DefaultCovers(tokens, parents, children, j);
    LinkedParentCoversChild(tokens, DEFAULT_SPEC, parents, children, j);
    assert Start(ParentSlicing(DEFAULT_SPEC), 0) == 0;
  }
}
