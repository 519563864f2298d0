/** `RAGSystem.chunkText`: a cursor walks the document and cuts windows of at most
    `chunkSize` characters, preferring to end a window just after its last '.' or
    newline, and steps back by `overlap` before the next window. A window whose
    trimmed text is longer than 50 characters becomes a chunk. */
module Chunker {
  import opened Text

  /** One retrievable span: the trimmed window text and the offsets recorded for it. */
  datatype Chunk = Chunk(text: string, start: int, end: int)

  /** The defaults of `RAGSystem` (`this.chunkSize`, `this.chunkOverlap`). */
  const DefaultChunkSize: int := 1000
  const DefaultOverlap: int := 200

  /** Only chunks whose trimmed text is longer than this are kept. */
  const MinChunkText: nat := 50

  /** The parameters for which the cursor strictly advances on every pass. */
  predicate Progressing(chunkSize: int, overlap: int) {
    0 < chunkSize && 2 * overlap <= chunkSize
  }

  predicate IsBreak(c: char) { c == '.' || c == '\n' }

  /** One pass of the loop: the slice `text[lo..hi]` it takes and the cursor it leaves. */
  datatype Window = Window(lo: nat, hi: nat, next: nat)

  /** The last '.' or newline of `window` (`Math.max` of the two `lastIndexOf`s), or -1
      when it has neither. */
  function LastBreak(window: string): (r: int)
    ensures -1 <= r < |window|
    ensures 0 <= r ==> IsBreak(window[r])
  {
    Max(LastIndexOf(window, '.'), LastIndexOf(window, '\n'))
  }

  /** No '.' or newline follows the position `LastBreak` reports. */
  lemma LastBreakIsLast(window: string)
    ensures forall j :: LastBreak(window) < j < |window| ==> !IsBreak(window[j])
  {
    LastIndexOfIsLast(window, '.');
    LastIndexOfIsLast(window, '\n');
  }

  /** The pass the loop makes with its cursor at `start`: the window is never empty,
      never longer than `chunkSize`, and the cursor moves forward, to `overlap` before
      the window's end (or to the end of the text after the last window). */
  function Step(text: string, chunkSize: int, overlap: int, start: nat): (w: Window)
    requires Progressing(chunkSize, overlap) && start < |text|
    ensures w.lo == start < w.hi <= Min(start + chunkSize, |text|)
    ensures start < w.next
    ensures w.next == if w.hi == |text| then |text| else w.hi - overlap
    ensures start + chunkSize >= |text| ==> w.hi == |text|
  {
    var end := Min(start + chunkSize, |text|);
    if end < |text| then
      var breakPoint := LastBreak(text[start..end]);
      if 2 * breakPoint > 2 * start + chunkSize then
        Window(start, start + breakPoint + 1, start + breakPoint + 1 - overlap)
      else
        Window(start, end, end - overlap)
    else
      Window(start, end, end)
  }

  /** Where a window `text[start..hi]` that does not reach the end of the text stops:
      at the full `chunkSize` when no '.' or newline of the window lies past the
      midpoint test, and otherwise just after the last '.' or newline of the window.
      The midpoint test compares a position WITHIN the window with the ABSOLUTE offset
      `start + chunkSize / 2`. */
  predicate CutsAtLastBreak(text: string, chunkSize: int, start: nat, hi: nat)
    requires 0 < hi <= |text| && start + chunkSize <= |text|
  {
    || (&& hi == start + chunkSize
        && forall p :: start <= p < start + chunkSize && IsBreak(text[p]) ==>
             2 * (p - start) <= 2 * start + chunkSize)
    || (&& IsBreak(text[hi - 1])
        && 2 * (hi - 1 - start) > 2 * start + chunkSize
        && forall p :: hi <= p < start + chunkSize ==> !IsBreak(text[p]))
  }

  lemma StepCutsAtLastBreak(text: string, chunkSize: int, overlap: int, start: nat)
    requires Progressing(chunkSize, overlap) && start + chunkSize < |text|
    ensures CutsAtLastBreak(text, chunkSize, start, Step(text, chunkSize, overlap, start).hi)
  {
    var end := start + chunkSize;
    var window := text[start..end];
    var breakPoint := LastBreak(window);
    LastBreakIsLast(window);
    forall p | start <= p < end && IsBreak(text[p]) ensures p - start <= breakPoint {
      assert window[p - start] == text[p];
    }
    if 2 * breakPoint > 2 * start + chunkSize {
      assert window[breakPoint] == text[start + breakPoint];
      forall p | start + breakPoint + 1 <= p < end ensures !IsBreak(text[p]) {
        assert window[p - start] == text[p];
      }
    }
  }

  /** Because the midpoint test compares a position within the window with an absolute
      offset, no window whose cursor has reached `chunkSize / 2 - 1` ends at a break: it
      takes the full `chunkSize`, or runs to the end of the text. */
  lemma LateWindowsAreFull(text: string, chunkSize: int, overlap: int, start: nat)
    requires Progressing(chunkSize, overlap) && start < |text| && chunkSize <= 2 * start + 2
    ensures Step(text, chunkSize, overlap, start).hi == Min(start + chunkSize, |text|)
  {
  }

  /** The passes the loop makes from cursor `start` until the cursor leaves the text:
      each is a `Step`, and each starts where the previous one left the cursor. */
  function WindowsFrom(text: string, chunkSize: int, overlap: int, start: nat): (ws: seq<Window>)
    requires Progressing(chunkSize, overlap)
    ensures ws == [] <==> |text| <= start
    ensures forall i :: 0 <= i < |ws| ==>
      && start <= ws[i].lo < ws[i].hi <= |text| && ws[i].hi - ws[i].lo <= chunkSize
      && ws[i].lo < ws[i].next
      && ws[i].next == if ws[i].hi == |text| then |text| else ws[i].hi - overlap
    decreases |text| - start
  {
    if |text| <= start then []
    else
      var w := Step(text, chunkSize, overlap, start);
      [w] + WindowsFrom(text, chunkSize, overlap, w.next)
  }

  /** Every pass the loop makes over `text`. */
  function Windows(text: string, chunkSize: int, overlap: int): seq<Window>
    requires Progressing(chunkSize, overlap)
  {
    WindowsFrom(text, chunkSize, overlap, 0)
  }

  /** What one pass pushes: nothing, or its trimmed window `piece` with the offsets
      counted back from the ALREADY ADVANCED cursor `cursor`, and only when the trimmed
      text is longer than 50 characters. */
  function Pushed(piece: string, cursor: int): seq<Chunk> {
    if |Trim(piece)| > MinChunkText then [Chunk(Trim(piece), cursor - |piece|, cursor)] else []
  }

  /** The chunks the loop pushes from cursor `start` on. */
  function ChunksFrom(text: string, chunkSize: int, overlap: int, start: nat): seq<Chunk>
    requires Progressing(chunkSize, overlap)
    decreases |text| - start
  {
    if |text| <= start then []
    else
      var w := Step(text, chunkSize, overlap, start);
      Pushed(text[start..w.hi], w.next) + ChunksFrom(text, chunkSize, overlap, w.next)
  }

  /** What `chunkText(text, chunkSize, overlap)` returns. */
  function Chunks(text: string, chunkSize: int, overlap: int): seq<Chunk>
    requires Progressing(chunkSize, overlap)
  {
    ChunksFrom(text, chunkSize, overlap, 0)
  }

  /** `chunkText`, as the loop the source runs: each pass takes a window, moves the
      cursor, and pushes the trimmed window when it is longer than 50 characters. */
  method ChunkText(text: string, chunkSize: int, overlap: int) returns (chunks: seq<Chunk>)
    requires Progressing(chunkSize, overlap)
    ensures chunks == Chunks(text, chunkSize, overlap)
  {
    chunks := [];
    var start: nat := 0;
    while start < |text|
      invariant chunks + ChunksFrom(text, chunkSize, overlap, start) == Chunks(text, chunkSize, overlap)
      decreases |text| - start
    {
      ghost var before, from := chunks, start;
      var chunk;
      chunk, start := TakeWindow(text, chunkSize, overlap, start);
      ghost var rest := ChunksFrom(text, chunkSize, overlap, start);
      assert ChunksFrom(text, chunkSize, overlap, from) == Pushed(chunk, start) + rest;
      chunks := PushIfLong(chunks, chunk, start);
      AppendAssociative(before, Pushed(chunk, start), rest);
    }
  }

  /** The end of the `chunkText` loop body: push the trimmed window `chunk` when it
      is longer than 50 characters, with offsets counted back from `cursor`. */
  method PushIfLong(chunks: seq<Chunk>, chunk: string, cursor: int) returns (pushed: seq<Chunk>)
    ensures pushed == chunks + Pushed(chunk, cursor)
  {
    var trimmed := Trim(chunk);
    pushed := chunks;
    if |trimmed| > MinChunkText {
      pushed := pushed + [Chunk(trimmed, cursor - |chunk|, cursor)];
    } else {
      assert chunks + [] == chunks;
    }
  }

  /** The body of the `chunkText` loop up to the push: the window `chunk` it takes at
      cursor `start`, and the cursor it moves to. */
  method TakeWindow(text: string, chunkSize: int, overlap: int, start: nat)
    returns (chunk: string, next: nat)
    requires Progressing(chunkSize, overlap) && start < |text|
    ensures var w := Step(text, chunkSize, overlap, start);
      chunk == text[start..w.hi] && next == w.next
  {
    var end := Min(start + chunkSize, |text|);
    chunk := text[start..end];
    if end < |text| {
      var lastSentence := LastIndexOf(chunk, '.');
      var lastNewline := LastIndexOf(chunk, '\n');
      var breakPoint := Max(lastSentence, lastNewline);
      if 2 * breakPoint > 2 * start + chunkSize {
        chunk := text[start..start + breakPoint + 1];
        next := start + breakPoint + 1 - overlap;
      } else {
        next := end - overlap;
      }
    } else {
      next := end;
    }
  }

  /** Kept apart from `ChunkText`: proving this inside the loop costs the solver more
      than the whole rest of the loop. */
  lemma AppendAssociative<T>(a: seq<T>, b: seq<T>, c: seq<T>)
    ensures a + (b + c) == (a + b) + c
  {
  }

  /** The windows `ws` all lie within `text`. */
  predicate InText(text: string, ws: seq<Window>) {
    forall i :: 0 <= i < |ws| ==> ws[i].lo <= ws[i].hi <= |text|
  }

  /** `c` is a long enough trimmed window `text[lo..hi]`, with offsets recorded as the
      loop records them: `end - start` is the untrimmed window length, and the offsets
      are the window's own when it runs to the end of the text and are shifted back by
      `overlap` otherwise. */
  predicate ChunkOfWindow(text: string, overlap: int, c: Chunk, lo: nat, hi: nat)
    requires lo <= hi <= |text|
  {
    && c.text == Trim(text[lo..hi]) && |c.text| > MinChunkText
    && c.end - c.start == hi - lo
    && (hi == |text| ==> c.start == lo && c.end == hi)
    && (hi < |text| ==> c.start == lo - overlap && c.end == hi - overlap)
  }

  /** `c` is the chunk of one of the windows `ws`. */
  predicate OfSomeWindow(text: string, overlap: int, ws: seq<Window>, c: Chunk)
    requires InText(text, ws)
  {
    exists i :: 0 <= i < |ws| && ChunkOfWindow(text, overlap, c, ws[i].lo, ws[i].hi)
  }

  /** What the pass at cursor `start` pushes, if anything, is the chunk of its window
      and ends at the cursor the pass leaves. */
  lemma PushedByStep(text: string, chunkSize: int, overlap: int, start: nat)
    requires Progressing(chunkSize, overlap) && start < |text|
    ensures var w := Step(text, chunkSize, overlap, start);
      var head := Pushed(text[start..w.hi], w.next);
      && |head| <= 1
      && (head != [] ==> head[0].end == w.next && ChunkOfWindow(text, overlap, head[0], w.lo, w.hi))
  {
  }

  /** Every chunk in `cs` is longer than 50 characters and is the chunk of one of the
      windows `ws`. */
  predicate FromWindows(text: string, overlap: int, ws: seq<Window>, cs: seq<Chunk>)
    requires InText(text, ws)
  {
    forall c :: c in cs ==> |c.text| > MinChunkText && OfSomeWindow(text, overlap, ws, c)
  }

  /** Some chunk of `cs` is the chunk of the window `w`. */
  predicate Pushes(text: string, overlap: int, cs: seq<Chunk>, w: Window)
    requires w.lo <= w.hi <= |text|
  {
    exists c :: c in cs && ChunkOfWindow(text, overlap, c, w.lo, w.hi)
  }

  /** Every window of `ws` whose trimmed text is longer than 50 characters has its chunk
      in `cs`. */
  predicate LongWindowsPushed(text: string, overlap: int, ws: seq<Window>, cs: seq<Chunk>)
    requires InText(text, ws)
  {
    forall i :: 0 <= i < |ws| && |Trim(text[ws[i].lo..ws[i].hi])| > MinChunkText ==>
      Pushes(text, overlap, cs, ws[i])
  }

  /** Every pass made from cursor `start` on whose trimmed window is longer than 50
      characters pushes its chunk. */
  lemma {:induction false} WindowsFromPushed(text: string, chunkSize: int, overlap: int, start: nat)
    requires Progressing(chunkSize, overlap)
    ensures InText(text, WindowsFrom(text, chunkSize, overlap, start))
    ensures LongWindowsPushed(text, overlap, WindowsFrom(text, chunkSize, overlap, start),
                              ChunksFrom(text, chunkSize, overlap, start))
    decreases |text| - start
  {
    if start < |text| {
      var w := Step(text, chunkSize, overlap, start);
      var head := Pushed(text[start..w.hi], w.next);
      var ws, rest := WindowsFrom(text, chunkSize, overlap, start), WindowsFrom(text, chunkSize, overlap, w.next);
      var tail := ChunksFrom(text, chunkSize, overlap, w.next);
      WindowsFromPushed(text, chunkSize, overlap, w.next);
      PushedByStep(text, chunkSize, overlap, start);
      assert ws == [w] + rest;
      forall i | 0 <= i < |ws| && |Trim(text[ws[i].lo..ws[i].hi])| > MinChunkText
        ensures Pushes(text, overlap, head + tail, ws[i])
      {
        if i == 0 {
          assert head != [] && head[0] in head + tail;
        } else {
          assert ws[i] == rest[i - 1];
          var c :| c in tail && ChunkOfWindow(text, overlap, c, rest[i - 1].lo, rest[i - 1].hi);
          assert c in head + tail;
        }
      }
    }
  }

  /** Every chunk pushed from cursor `start` on is the chunk of one of the passes made
      from `start` on. */
  lemma {:induction false} ChunksFromWindows(text: string, chunkSize: int, overlap: int, start: nat)
    requires Progressing(chunkSize, overlap)
    ensures InText(text, WindowsFrom(text, chunkSize, overlap, start))
    ensures FromWindows(text, overlap, WindowsFrom(text, chunkSize, overlap, start),
                        ChunksFrom(text, chunkSize, overlap, start))
    decreases |text| - start
  {
    if start < |text| {
      var w := Step(text, chunkSize, overlap, start);
      var head := Pushed(text[start..w.hi], w.next);
      var ws, rest := WindowsFrom(text, chunkSize, overlap, start), WindowsFrom(text, chunkSize, overlap, w.next);
      var tail := ChunksFrom(text, chunkSize, overlap, w.next);
      ChunksFromWindows(text, chunkSize, overlap, w.next);
      PushedByStep(text, chunkSize, overlap, start);
      assert ws == [w] + rest;
      forall c: Chunk | c in head + tail ensures |c.text| > MinChunkText && OfSomeWindow(text, overlap, ws, c) {
        if c in tail {
          var i :| 0 <= i < |rest| && ChunkOfWindow(text, overlap, c, rest[i].lo, rest[i].hi);
          assert ws[i + 1] == rest[i];
        } else {
          assert c == head[0] && ws[0] == w;
        }
      }
    }
  }

  /** Every chunk of `cs` ends after `start`. */
  predicate EndAfter(cs: seq<Chunk>, start: int) {
    forall j :: 0 <= j < |cs| ==> start < cs[j].end
  }

  /** The recorded ends of `cs` strictly increase. */
  predicate EndsIncrease(cs: seq<Chunk>) {
    forall j, k :: 0 <= j < k < |cs| ==> cs[j].end < cs[k].end
  }

  /** The chunks pushed from cursor `start` on end after `start`. */
  lemma {:induction false} ChunksFromEndAfter(text: string, chunkSize: int, overlap: int, start: nat)
    requires Progressing(chunkSize, overlap)
    ensures EndAfter(ChunksFrom(text, chunkSize, overlap, start), start)
    decreases |text| - start
  {
    if start < |text| {
      var w := Step(text, chunkSize, overlap, start);
      var head := Pushed(text[start..w.hi], w.next);
      var tail := ChunksFrom(text, chunkSize, overlap, w.next);
      var cf := ChunksFrom(text, chunkSize, overlap, start);
      ChunksFromEndAfter(text, chunkSize, overlap, w.next);
      PushedByStep(text, chunkSize, overlap, start);
      assert cf == head + tail;
      forall j | 0 <= j < |cf| ensures start < cf[j].end {
        if j < |head| {
          assert cf[j] == head[0];
        } else {
          assert cf[j] == tail[j - |head|];
        }
      }
    }
  }

  /** The recorded ends of the chunks pushed from cursor `start` on strictly increase. */
  lemma {:induction false} ChunksFromAdvance(text: string, chunkSize: int, overlap: int, start: nat)
    requires Progressing(chunkSize, overlap)
    ensures EndsIncrease(ChunksFrom(text, chunkSize, overlap, start))
    decreases |text| - start
  {
    if start < |text| {
      var w := Step(text, chunkSize, overlap, start);
      var head := Pushed(text[start..w.hi], w.next);
      var tail := ChunksFrom(text, chunkSize, overlap, w.next);
      var cf := ChunksFrom(text, chunkSize, overlap, start);
      ChunksFromAdvance(text, chunkSize, overlap, w.next);
      ChunksFromEndAfter(text, chunkSize, overlap, w.next);
      PushedByStep(text, chunkSize, overlap, start);
      assert cf == head + tail;
      forall j, k | 0 <= j < k < |cf| ensures cf[j].end < cf[k].end {
        if j < |head| {
          assert cf[j] == head[0] && cf[k] == tail[k - 1];
        } else {
          assert cf[j] == tail[j - |head|] && cf[k] == tail[k - |head|];
        }
      }
    }
  }

  /** Every chunk of `text` is the chunk of one of the loop's windows: the trim of that
      window, longer than 50 characters, with its recorded offsets as `ChunkOfWindow`
      states them. Conversely, every window whose trimmed text is longer than 50
      characters has its chunk among them. The recorded ends strictly increase, so
      chunks come in text order. */
  lemma ChunksAreLongTrimmedWindows(text: string, chunkSize: int, overlap: int)
    requires Progressing(chunkSize, overlap)
    ensures InText(text, Windows(text, chunkSize, overlap))
    ensures FromWindows(text, overlap, Windows(text, chunkSize, overlap), Chunks(text, chunkSize, overlap))
    ensures LongWindowsPushed(text, overlap, Windows(text, chunkSize, overlap), Chunks(text, chunkSize, overlap))
    ensures EndsIncrease(Chunks(text, chunkSize, overlap))
  {
    ChunksFromWindows(text, chunkSize, overlap, 0);
    WindowsFromPushed(text, chunkSize, overlap, 0);
    ChunksFromAdvance(text, chunkSize, overlap, 0);
  }

  /** A text whose trimmed length is at most 50 characters yields no chunk: no window of
      it trims to anything longer than the whole text does. */
  lemma {:induction false} ShortTextHasNoChunks(text: string, chunkSize: int, overlap: int, start: nat)
    requires Progressing(chunkSize, overlap)
    requires |Trim(text)| <= MinChunkText
    ensures ChunksFrom(text, chunkSize, overlap, start) == []
    decreases |text| - start
  {
    if start < |text| {
      var w := Step(text, chunkSize, overlap, start);
      TrimSliceNoLonger(text, start, w.hi);
      ShortTextHasNoChunks(text, chunkSize, overlap, w.next);
    }
  }

  /** The windows `ws` start at `start`, and each starts where the previous one left
      the cursor. */
  ghost predicate Chained(ws: seq<Window>, start: nat) {
    && (ws != [] ==> ws[0].lo == start)
    && forall i, j :: 0 <= i < j < |ws| && j == i + 1 ==> ws[j].lo == ws[i].next
  }

  /** From cursor `start` on, each window starts where the previous one left the
      cursor. */
  lemma {:induction false} WindowsChain(text: string, chunkSize: int, overlap: int, start: nat)
    requires Progressing(chunkSize, overlap)
    ensures Chained(WindowsFrom(text, chunkSize, overlap, start), start)
    decreases |text| - start
  {
    if start < |text| {
      var w := Step(text, chunkSize, overlap, start);
      var ws, rest := WindowsFrom(text, chunkSize, overlap, start), WindowsFrom(text, chunkSize, overlap, w.next);
      WindowsChain(text, chunkSize, overlap, w.next);
      assert ws == [w] + rest;
      forall i, j | 0 <= i < j < |ws| && j == i + 1 ensures ws[j].lo == ws[i].next {
        if i > 0 {
          assert ws[i] == rest[i - 1] && ws[j] == rest[j - 1];
        }
      }
    }
  }

  /** For `overlap >= 0` the last window from cursor `start` on ends at the end of the
      text. */
  lemma {:induction false} LastWindowEndsText(text: string, chunkSize: int, overlap: int, start: nat)
    requires Progressing(chunkSize, overlap) && 0 <= overlap && start < |text|
    ensures WindowsFrom(text, chunkSize, overlap, start) != []
    ensures Last(WindowsFrom(text, chunkSize, overlap, start)).hi == |text|
    decreases |text| - start
  {
    var w := Step(text, chunkSize, overlap, start);
    var ws, rest := WindowsFrom(text, chunkSize, overlap, start), WindowsFrom(text, chunkSize, overlap, w.next);
    assert ws == [w] + rest;
    if w.next < |text| {
      LastWindowEndsText(text, chunkSize, overlap, w.next);
      assert Last(ws) == Last(rest);
    }
  }

  function Last<T>(s: seq<T>): T
    requires s != []
  {
    s[|s| - 1]
  }

  /** The windows `ws` tile `text` with no gap: the first starts at 0, each is at most
      `chunkSize` long, each next one starts strictly later but no later than the
      previous one ends, the last ends at the end of the text, and every character of
      the text lies in some window. */
  ghost predicate Tiles(text: string, chunkSize: int, ws: seq<Window>) {
    && (ws == [] <==> text == [])
    && (ws != [] ==> ws[0].lo == 0 && ws[|ws| - 1].hi == |text|)
    && (forall i :: 0 <= i < |ws| ==> ws[i].hi - ws[i].lo <= chunkSize)
    && (forall i, j :: 0 <= i < j < |ws| && j == i + 1 ==> ws[i].lo < ws[j].lo <= ws[i].hi)
    && (forall k :: 0 <= k < |text| ==> Covered(ws, k))
  }

  /** For `overlap >= 0` the loop's windows tile the text. */
  lemma WindowsCoverText(text: string, chunkSize: int, overlap: int)
    requires Progressing(chunkSize, overlap) && 0 <= overlap
    ensures Tiles(text, chunkSize, Windows(text, chunkSize, overlap))
  {
    var ws := Windows(text, chunkSize, overlap);
    WindowsChain(text, chunkSize, overlap, 0);
    if text != [] {
      LastWindowEndsText(text, chunkSize, overlap, 0);
    }
    forall k | 0 <= k < |text| ensures Covered(ws, k) {
      CoveredFrom(text, chunkSize, overlap, 0, k);
    }
  }

  /** Character `k` lies in one of the windows `ws`. */
  predicate Covered(ws: seq<Window>, k: nat) {
    exists i :: 0 <= i < |ws| && ws[i].lo <= k < ws[i].hi
  }

  lemma {:induction false} CoveredFrom(text: string, chunkSize: int, overlap: int, start: nat, k: nat)
    requires Progressing(chunkSize, overlap) && 0 <= overlap
    requires start <= k < |text|
    ensures Covered(WindowsFrom(text, chunkSize, overlap, start), k)
    decreases |text| - start
  {
    var w := Step(text, chunkSize, overlap, start);
    var rest := WindowsFrom(text, chunkSize, overlap, w.next);
    var ws := WindowsFrom(text, chunkSize, overlap, start);
    assert ws == [w] + rest;
    if k >= w.hi {
      CoveredFrom(text, chunkSize, overlap, w.next, k);
      var i :| 0 <= i < |rest| && rest[i].lo <= k < rest[i].hi;
      assert ws[i + 1] == rest[i];
    } else {
      assert ws[0].lo <= k < ws[0].hi;
    }
  }
}
