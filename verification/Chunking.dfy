/** Splitting a text into overlapping chunks that prefer to end on a natural boundary. */
module Chunking {
  import opened Options

  datatype Chunk = Chunk(index: nat, text: string, start: nat, end: nat)

  // ---- Characters ----

  /** What both `str.strip()` and the pattern class for whitespace treat as a space. */
  predicate IsSpace(c: char) {
    var n := c as int;
    || 0x09 <= n <= 0x0d || 0x1c <= n <= 0x20 || n == 0x85 || n == 0xa0 || n == 0x1680
    || 0x2000 <= n <= 0x200a || n == 0x2028 || n == 0x2029 || n == 0x202f || n == 0x205f || n == 0x3000
  }

  predicate IsTerminator(c: char) { c == '.' || c == '!' || c == '?' }

  predicate IsCloser(c: char) { c == '"' || c == '\'' || c == ')' || c == ']' }

  predicate Blank(text: string) {
    forall i :: 0 <= i < |text| ==> IsSpace(text[i])
  }

  /** The same characters, listed. */
  const WHITESPACE: string :=
    "\t\n\U{0B}\U{0C}\r\U{1C}\U{1D}\U{1E}\U{1F} \U{85}\U{A0}\U{1680}" +
    "\U{2000}\U{2001}\U{2002}\U{2003}\U{2004}\U{2005}\U{2006}\U{2007}\U{2008}\U{2009}\U{200A}" +
    "\U{2028}\U{2029}\U{202F}\U{205F}\U{3000}"

  lemma CharactersListed(c: char)
    ensures IsSpace(c) <==> c in WHITESPACE
    ensures IsTerminator(c) <==> c in ".!?"
    ensures IsCloser(c) <==> c in "\"')]"
  {
  }

  // ---- Boundaries ----

  datatype Boundary = Paragraph | Line | Sentence

  /** The offset just after a boundary whose text starts at `i` and lies inside `text[..hi]`;
      0 when there is none. A sentence boundary includes the white space it looks ahead at. */
  function BoundaryEnd(text: string, kind: Boundary, i: nat, hi: nat): (end: nat)
    requires hi <= |text|
    ensures end != 0 ==> i < end <= hi
  {
    match kind
    case Paragraph => if i + 2 <= hi && text[i] == '\n' && text[i + 1] == '\n' then i + 2 else 0
    case Line => if i + 1 <= hi && text[i] == '\n' then i + 1 else 0
    case Sentence =>
      if i < hi && IsTerminator(text[i]) then
        if i + 2 < hi && IsCloser(text[i + 1]) && IsSpace(text[i + 2]) then i + 3
        else if i + 1 < hi && IsSpace(text[i + 1]) then i + 2
        else 0
      else 0
  }

  /** The end of the last boundary of one kind that starts at or after `lo`; 0 when there is
      none. Sentence matches cannot overlap, so the last match is the one that starts last. */
  function LastEnd(text: string, kind: Boundary, lo: nat, hi: nat): (end: nat)
    requires lo <= hi <= |text|
    ensures end != 0 ==> lo < end <= hi
    decreases hi - lo
  {
    if lo == hi then 0
    else
      var later := LastEnd(text, kind, lo + 1, hi);
      if later != 0 then later else BoundaryEnd(text, kind, lo, hi)
  }

  /** It is the end of some boundary in the window, and no boundary in the window ends later. */
  lemma {:induction false} LastEndExact(text: string, kind: Boundary, lo: nat, hi: nat)
    requires lo <= hi <= |text|
    ensures LastEnd(text, kind, lo, hi) != 0 ==>
              exists i :: lo <= i < hi && BoundaryEnd(text, kind, i, hi) == LastEnd(text, kind, lo, hi)
    ensures forall i :: lo <= i < hi ==> BoundaryEnd(text, kind, i, hi) <= LastEnd(text, kind, lo, hi)
    decreases hi - lo
  {
    if lo < hi {
      LastEndExact(text, kind, lo + 1, hi);
      var later := LastEnd(text, kind, lo + 1, hi);
      if later != 0 {
        var i :| lo + 1 <= i < hi && BoundaryEnd(text, kind, i, hi) == later;
        EarlierEndsEarlier(text, kind, lo, i, hi);
      } else {
        assert BoundaryEnd(text, kind, lo, hi) == LastEnd(text, kind, lo, hi);
      }
    }
  }

  lemma EarlierEndsEarlier(text: string, kind: Boundary, i: nat, j: nat, hi: nat)
    requires i < j < hi <= |text|
    requires BoundaryEnd(text, kind, j, hi) != 0
    ensures BoundaryEnd(text, kind, i, hi) <= BoundaryEnd(text, kind, j, hi)
  {
  }

  /** The preferred end offset in `(lo, hi]`: after the last blank line, else after the last line,
      else after the last sentence, else a hard cut at `hi`. */
  function BestBreak(text: string, lo: nat, hi: nat): (end: nat)
    requires hi <= |text|
    ensures end <= hi
    ensures lo < hi ==> lo < end
  {
    if lo >= hi then hi
    else if LastEnd(text, Paragraph, lo, hi) != 0 then LastEnd(text, Paragraph, lo, hi)
    else if LastEnd(text, Line, lo, hi) != 0 then LastEnd(text, Line, lo, hi)
    else if LastEnd(text, Sentence, lo, hi) != 0 then LastEnd(text, Sentence, lo, hi)
    else hi
  }

  // ---- What the break prefers, in terms of characters ----

  predicate BlankLineEndsAt(text: string, lo: nat, end: nat)
    requires end <= |text|
  {
    lo + 2 <= end && text[end - 2] == '\n' && text[end - 1] == '\n'
  }

  predicate LineEndsAt(text: string, lo: nat, end: nat)
    requires end <= |text|
  {
    lo + 1 <= end && text[end - 1] == '\n'
  }

  /** A terminator, possibly a closing quote or bracket, then the white space the break swallows. */
  predicate SentenceEndsAt(text: string, lo: nat, end: nat)
    requires end <= |text|
  {
    || (lo + 2 <= end && IsTerminator(text[end - 2]) && IsSpace(text[end - 1]))
    || (lo + 3 <= end && IsTerminator(text[end - 3]) && IsCloser(text[end - 2]) && IsSpace(text[end - 1]))
  }

  predicate EndsAt(text: string, kind: Boundary, lo: nat, end: nat)
    requires end <= |text|
  {
    match kind
    case Paragraph => BlankLineEndsAt(text, lo, end)
    case Line => LineEndsAt(text, lo, end)
    case Sentence => SentenceEndsAt(text, lo, end)
  }

  lemma BoundaryFromEnd(text: string, kind: Boundary, lo: nat, end: nat, hi: nat)
    requires lo < end <= hi <= |text|
    ensures EndsAt(text, kind, lo, end) <==> exists i :: lo <= i < hi && BoundaryEnd(text, kind, i, hi) == end
  {
    if EndsAt(text, kind, lo, end) {
      var i := match kind case Paragraph => end - 2 case Line => end - 1
                          case Sentence => if IsTerminator(text[end - 2]) then end - 2 else end - 3;
      assert BoundaryEnd(text, kind, i, hi) == end;
    }
  }

  /** `end` is the last place in `(lo, hi]` where a boundary of this kind ends. */
  ghost predicate IsLastEnd(text: string, kind: Boundary, lo: nat, hi: nat, end: nat)
    requires lo < end <= hi <= |text|
  {
    EndsAt(text, kind, lo, end) && forall e :: end < e <= hi ==> !EndsAt(text, kind, lo, e)
  }

  ghost predicate NoneEnds(text: string, kind: Boundary, lo: nat, hi: nat)
    requires hi <= |text|
  {
    forall e :: lo < e <= hi ==> !EndsAt(text, kind, lo, e)
  }

  lemma LastEndIsLast(text: string, kind: Boundary, lo: nat, hi: nat)
    requires lo < hi <= |text|
    ensures var end := LastEnd(text, kind, lo, hi);
            if end == 0 then NoneEnds(text, kind, lo, hi) else IsLastEnd(text, kind, lo, hi, end)
  {
    LastEndExact(text, kind, lo, hi);
    var end := LastEnd(text, kind, lo, hi);
    if end != 0 {
      BoundaryFromEnd(text, kind, lo, end, hi);
    }
    forall e | lo < e <= hi && e > end
      ensures !EndsAt(text, kind, lo, e)
    {
      BoundaryFromEnd(text, kind, lo, e, hi);
    }
  }

  /** A blank line anywhere in the window wins, then a line end, then a sentence end, each at its
      last occurrence; only a window with none of them is cut at its hard end. */
  ghost predicate PreferredBreak(text: string, lo: nat, hi: nat, end: nat)
    requires lo < end <= hi <= |text|
  {
    || IsLastEnd(text, Paragraph, lo, hi, end)
    || (NoneEnds(text, Paragraph, lo, hi) && IsLastEnd(text, Line, lo, hi, end))
    || (NoneEnds(text, Paragraph, lo, hi) && NoneEnds(text, Line, lo, hi) && IsLastEnd(text, Sentence, lo, hi, end))
    || (NoneEnds(text, Paragraph, lo, hi) && NoneEnds(text, Line, lo, hi) && NoneEnds(text, Sentence, lo, hi) && end == hi)
  }

  lemma BestBreakPrefers(text: string, lo: nat, hi: nat)
    requires lo < hi <= |text|
    ensures PreferredBreak(text, lo, hi, BestBreak(text, lo, hi))
  {
    LastEndIsLast(text, Paragraph, lo, hi);
    LastEndIsLast(text, Line, lo, hi);
    LastEndIsLast(text, Sentence, lo, hi);
  }

  // ---- Breaks of shifted windows ----

  /** A boundary inside the old window that still starts inside the new one is still there. */
  lemma BoundarySurvives(text: string, kind: Boundary, i: nat, hi: nat, hi': nat)
    requires hi <= hi' <= |text|
    requires BoundaryEnd(text, kind, i, hi) != 0
    ensures BoundaryEnd(text, kind, i, hi') == BoundaryEnd(text, kind, i, hi)
  {
  }

  /** A window with no boundary of a kind can only gain one that ends beyond it. */
  lemma NewBoundaryIsBeyond(text: string, kind: Boundary, i: nat, lo: nat, hi: nat, hi': nat)
    requires lo <= i < hi' && hi <= hi' <= |text| && lo <= hi
    requires LastEnd(text, kind, lo, hi) == 0
    requires BoundaryEnd(text, kind, i, hi') != 0
    ensures BoundaryEnd(text, kind, i, hi') > hi
  {
    LastEndExact(text, kind, lo, hi);
    if i < hi {
      assert BoundaryEnd(text, kind, i, hi) == 0;
    }
  }

  lemma LastEndBeyond(text: string, kind: Boundary, lo: nat, hi: nat, lo': nat, hi': nat)
    requires lo <= lo' <= hi' <= |text| && lo <= hi <= hi'
    requires LastEnd(text, kind, lo, hi) == 0
    requires LastEnd(text, kind, lo', hi') != 0
    ensures LastEnd(text, kind, lo', hi') > hi
  {
    var end := LastEnd(text, kind, lo', hi');
    LastEndExact(text, kind, lo', hi');
    var i :| lo' <= i < hi' && BoundaryEnd(text, kind, i, hi') == end;
    NewBoundaryIsBeyond(text, kind, i, lo, hi, hi');
  }

  /** If the boundary the old window ended on starts inside the new window, the new window has
      that boundary or a later one of the same kind. */
  lemma LastEndKept(text: string, kind: Boundary, lo: nat, hi: nat, lo': nat, hi': nat, i: nat)
    requires lo <= lo' <= i < hi <= hi' <= |text|
    requires BoundaryEnd(text, kind, i, hi) != 0
    ensures LastEnd(text, kind, lo', hi') >= BoundaryEnd(text, kind, i, hi)
  {
    BoundarySurvives(text, kind, i, hi, hi');
    LastEndExact(text, kind, lo', hi');
  }

  /** A boundary cut in half by the new window's start: it ends at most two characters in, and the
      two-character case starts with a closing quote or bracket, which no shorter break follows. */
  lemma CutBoundary(text: string, kind: Boundary, i: nat, hi: nat, lo': nat, hi': nat)
    requires i < lo' < hi' && hi <= hi' <= |text|
    requires BoundaryEnd(text, kind, i, hi) > lo'
    ensures BestBreak(text, lo', hi') >= BoundaryEnd(text, kind, i, hi)
  {
    var end := BoundaryEnd(text, kind, i, hi);
    assert end <= lo' + 2;
    if end == lo' + 2 {
      assert IsCloser(text[lo']);
      forall k: Boundary
        ensures BoundaryEnd(text, k, lo', hi') == 0
      {
      }
      CutBoundaryFirstCharacter(text, Paragraph, lo', hi');
      CutBoundaryFirstCharacter(text, Line, lo', hi');
      CutBoundaryFirstCharacter(text, Sentence, lo', hi');
    }
  }

  lemma CutBoundaryFirstCharacter(text: string, kind: Boundary, lo: nat, hi: nat)
    requires lo < hi <= |text|
    requires BoundaryEnd(text, kind, lo, hi) == 0
    ensures LastEnd(text, kind, lo, hi) != 0 ==> LastEnd(text, kind, lo, hi) >= lo + 2
  {
  }

  /** The kind of boundary a window breaks on; `None` is a hard cut. */
  function BreakKind(text: string, lo: nat, hi: nat): Option<Boundary>
    requires lo <= hi <= |text|
  {
    if LastEnd(text, Paragraph, lo, hi) != 0 then Some(Paragraph)
    else if LastEnd(text, Line, lo, hi) != 0 then Some(Line)
    else if LastEnd(text, Sentence, lo, hi) != 0 then Some(Sentence)
    else None
  }

  /** Moving a window forward never moves its break backward. */
  lemma BestBreakMonotone(text: string, lo: nat, hi: nat, lo': nat, hi': nat)
    requires lo < hi && lo' < hi' <= |text|
    requires lo <= lo' && hi <= hi'
    ensures BestBreak(text, lo, hi) <= BestBreak(text, lo', hi')
  {
    var end := BestBreak(text, lo, hi);
    if end > lo' {
      match BreakKind(text, lo, hi)
      case None =>
        BeyondOldWindow(text, lo, hi, lo', hi');
      case Some(kind) =>
        LastEndExact(text, kind, lo, hi);
        var i :| lo <= i < hi && BoundaryEnd(text, kind, i, hi) == end;
        if i < lo' {
          CutBoundary(text, kind, i, hi, lo', hi');
        } else {
          LastEndKept(text, kind, lo, hi, lo', hi', i);
          BeyondOldWindow(text, lo, hi, lo', hi');
        }
    }
  }

  /** Kinds preferred over the old break were absent from the old window, so where the new
      window has one it ends beyond the old window. */
  lemma BeyondOldWindow(text: string, lo: nat, hi: nat, lo': nat, hi': nat)
    requires lo < hi && lo' < hi' <= |text| && lo <= lo' && hi <= hi'
    ensures LastEnd(text, Paragraph, lo, hi) == 0 && LastEnd(text, Paragraph, lo', hi') != 0 ==>
              LastEnd(text, Paragraph, lo', hi') > hi
    ensures LastEnd(text, Line, lo, hi) == 0 && LastEnd(text, Line, lo', hi') != 0 ==>
              LastEnd(text, Line, lo', hi') > hi
    ensures LastEnd(text, Sentence, lo, hi) == 0 && LastEnd(text, Sentence, lo', hi') != 0 ==>
              LastEnd(text, Sentence, lo', hi') > hi
  {
    if LastEnd(text, Paragraph, lo, hi) == 0 && LastEnd(text, Paragraph, lo', hi') != 0 {
      LastEndBeyond(text, Paragraph, lo, hi, lo', hi');
    }
    if LastEnd(text, Line, lo, hi) == 0 && LastEnd(text, Line, lo', hi') != 0 {
      LastEndBeyond(text, Line, lo, hi, lo', hi');
    }
    if LastEnd(text, Sentence, lo, hi) == 0 && LastEnd(text, Sentence, lo', hi') != 0 {
      LastEndBeyond(text, Sentence, lo, hi, lo', hi');
    }
  }

  // ---- chunk_text ----

  const TARGET_CHARS := 2000
  const OVERLAP_CHARS := 200

  datatype Error = TargetNotPositive

  function Min(a: int, b: int): int { if a <= b then a else b }

  function Max(a: int, b: int): int { if a >= b then a else b }

  /** The requested overlap, clamped so that a chunk always moves past the one before. */
  function ClampedOverlap(target: nat, overlap: int): nat
    requires target > 0
  {
    Max(0, Min(overlap, target - 1))
  }

  /** Where the chunk that starts at `pos` ends. */
  function ChunkEnd(text: string, target: nat, pos: nat): (end: nat)
    requires target > 0 && pos < |text|
    ensures pos < end <= |text| && end <= pos + target
    ensures end < |text| ==> end > pos + target / 2
  {
    var hardEnd := Min(pos + target, |text|);
    if hardEnd >= |text| then |text| else BestBreak(text, pos + target / 2, hardEnd)
  }

  /** Where the next chunk starts: back by the overlap, but always forward by one. */
  function NextPos(pos: nat, end: nat, overlap: nat): (next: nat)
    requires pos < end
    ensures pos < next <= end
    ensures end - next == Min(overlap, end - pos - 1)
  {
    if end - overlap <= pos then pos + 1 else end - overlap
  }

  function ChunkFor(text: string, target: nat, pos: nat, index: nat): Chunk
    requires target > 0 && pos < |text|
  {
    var end := ChunkEnd(text, target, pos);
    Chunk(index, text[pos..end], pos, end)
  }

  function ChunksFrom(text: string, target: nat, overlap: nat, pos: nat, index: nat): (r: seq<Chunk>)
    requires target > 0 && pos < |text|
    ensures |r| > 0
    decreases |text| - pos
  {
    var end := ChunkEnd(text, target, pos);
    var c := ChunkFor(text, target, pos, index);
    if end >= |text| then [c] else [c] + ChunksFrom(text, target, overlap, NextPos(pos, end, overlap), index + 1)
  }

  function ChunkText(text: string, target: int, overlap: int): Result<seq<Chunk>, Error> {
    if target <= 0 then Err(TargetNotPositive)
    else if Blank(text) then Ok([])
    else if |text| <= target then Ok([Chunk(0, text, 0, |text|)])
    else Ok(ChunksFrom(text, target, ClampedOverlap(target, overlap), 0, 0))
  }

  method ChunkTextInLoop(text: string, target: int, overlap: int) returns (result: Result<seq<Chunk>, Error>)
    ensures result == ChunkText(text, target, overlap)
  {
    if target <= 0 {
      return Err(TargetNotPositive);
    }
    if Blank(text) {
      return Ok([]);
    }
    if |text| <= target {
      return Ok([Chunk(0, text, 0, |text|)]);
    }
    var chunks := ChunkLongText(text, target, ClampedOverlap(target, overlap));
    result := Ok(chunks);
  }

  method ChunkLongText(text: string, target: nat, overlap: nat) returns (chunks: seq<Chunk>)
    requires target > 0 && |text| > target
    ensures chunks == ChunksFrom(text, target, overlap, 0, 0)
  {
    var pos: nat, index: nat := 0, 0;
    chunks := [];
    while pos < |text|
      invariant pos < |text|
      invariant chunks + ChunksFrom(text, target, overlap, pos, index) == ChunksFrom(text, target, overlap, 0, 0)
      decreases |text| - pos
    {
      var c := NextChunk(text, target, pos, index);
      LoopStep(text, target, overlap, pos, index, chunks);
      chunks := chunks + [c];
      index := index + 1;
      if c.end >= |text| {
        break;
      }
      pos := Advance(pos, c.end, overlap);
    }
  }

  /** The next chunk starts `overlap` characters back from the end, but always moves on. */
  method Advance(pos: nat, end: nat, overlap: nat) returns (next: nat)
    requires pos < end
    ensures next == NextPos(pos, end, overlap)
  {
    var nextPos := end - overlap;
    if nextPos <= pos {
      nextPos := pos + 1;
    }
    next := nextPos;
  }

  method NextChunk(text: string, target: nat, pos: nat, index: nat) returns (c: Chunk)
    requires target > 0 && pos < |text|
    ensures c == ChunkFor(text, target, pos, index)
  {
    var end;
    var hardEnd := Min(pos + target, |text|);
    if hardEnd >= |text| {
      end := |text|;
    } else {
      var minBreak := pos + target / 2;
      end := BestBreak(text, minBreak, hardEnd);
    }
    c := Chunk(index, text[pos..end], pos, end);
  }

  /** What one turn of the loop does to "chunks so far, then the chunks still to come". */
  lemma LoopStep(text: string, target: nat, overlap: nat, pos: nat, index: nat, chunks: seq<Chunk>)
    requires target > 0 && pos < |text|
    ensures var end := ChunkEnd(text, target, pos);
            var c := ChunkFor(text, target, pos, index);
            chunks + ChunksFrom(text, target, overlap, pos, index) ==
            if end >= |text| then chunks + [c]
            else chunks + [c] + ChunksFrom(text, target, overlap, NextPos(pos, end, overlap), index + 1)
  {
    var end := ChunkEnd(text, target, pos);
    if end < |text| {
      var tail := ChunksFrom(text, target, overlap, NextPos(pos, end, overlap), index + 1);
      assert chunks + ([ChunkFor(text, target, pos, index)] + tail) == chunks + [ChunkFor(text, target, pos, index)] + tail;
    }
  }

  // ---- What the chunks satisfy ----

  /** Chunk `i` is a slice of the text of at most `target` characters ending where a chunk that
      starts there must, and it ends the text exactly when it is the last. */
  ghost predicate Placed(text: string, target: nat, chunks: seq<Chunk>, i: nat)
    requires target > 0 && i < |chunks|
  {
    var c := chunks[i];
    && c.start < c.end <= |text|
    && c.end == ChunkEnd(text, target, c.start)
    && c.text == text[c.start..c.end]
    && c.end - c.start <= target
    && (c.end == |text| <==> i == |chunks| - 1)
    && (c.end < |text| ==> c.end - c.start > target / 2)
  }

  /** Chunk `i + 1` starts inside or right after chunk `i`, shares at most the overlap with it,
      and does not end before it. */
  ghost predicate Follows(overlap: nat, chunks: seq<Chunk>, i: nat)
    requires i + 1 < |chunks|
  {
    var a, b := chunks[i], chunks[i + 1];
    && a.start < b.start <= a.end <= b.end
    && a.end - b.start == Min(overlap, a.end - a.start - 1)
  }

  ghost predicate GoodChunks(text: string, target: nat, overlap: nat, chunks: seq<Chunk>)
    requires target > 0
  {
    && (forall i :: 0 <= i < |chunks| ==> Placed(text, target, chunks, i))
    && (forall i :: 0 <= i < |chunks| - 1 ==> Follows(overlap, chunks, i))
  }

  lemma EndsNeverDecrease(text: string, target: nat, pos: nat, pos': nat)
    requires target > 0 && pos <= pos' < |text|
    ensures ChunkEnd(text, target, pos) <= ChunkEnd(text, target, pos')
  {
    if pos + target < |text| && pos' + target < |text| {
      BestBreakMonotone(text, pos + target / 2, pos + target, pos' + target / 2, pos' + target);
    }
  }

  lemma {:induction false} ChunksFromGood(text: string, target: nat, overlap: nat, pos: nat, index: nat)
    requires target > 0 && pos < |text|
    ensures var r := ChunksFrom(text, target, overlap, pos, index);
            && GoodChunks(text, target, overlap, r)
            && r[0] == ChunkFor(text, target, pos, index)
            && forall i :: 0 <= i < |r| ==> r[i].index == index + i
    decreases |text| - pos
  {
    var end := ChunkEnd(text, target, pos);
    if end < |text| {
      var next := NextPos(pos, end, overlap);
      ChunksFromGood(text, target, overlap, next, index + 1);
      EndsNeverDecrease(text, target, pos, next);
      PrependGood(text, target, overlap, ChunkFor(text, target, pos, index),
                  ChunksFrom(text, target, overlap, next, index + 1));
    }
  }

  lemma PrependGood(text: string, target: nat, overlap: nat, c: Chunk, tail: seq<Chunk>)
    requires target > 0 && tail != [] && GoodChunks(text, target, overlap, tail)
    requires c.start < c.end < |text| && c.text == text[c.start..c.end] && c.end == ChunkEnd(text, target, c.start)
    requires target / 2 < c.end - c.start <= target
    requires c.start < tail[0].start <= c.end <= tail[0].end
    requires c.end - tail[0].start == Min(overlap, c.end - c.start - 1)
    ensures GoodChunks(text, target, overlap, [c] + tail)
  {
    var r := [c] + tail;
    forall i | 0 <= i < |r|
      ensures Placed(text, target, r, i)
    {
      if i > 0 {
        assert Placed(text, target, tail, i - 1);
      }
    }
    forall i | 0 <= i < |r| - 1
      ensures Follows(overlap, r, i)
    {
      if i > 0 {
        assert Follows(overlap, tail, i - 1);
      }
    }
  }

  /** Every successful call: numbered from 0, starting at the start of the text, each chunk a slice
      of at most `target` characters, only the last reaching the end, starts strictly increasing,
      ends never decreasing, no gap, overlap as requested or less. */
  lemma ChunkTextGood(text: string, target: int, overlap: int)
    requires target > 0 && !Blank(text)
    ensures ChunkText(text, target, overlap).Ok?
    ensures var chunks := ChunkText(text, target, overlap).value;
            && GoodChunks(text, target, ClampedOverlap(target, overlap), chunks)
            && chunks != [] && chunks[0].start == 0
            && forall i :: 0 <= i < |chunks| ==> chunks[i].index == i
  {
    if |text| > target {
      ChunksFromGood(text, target, ClampedOverlap(target, overlap), 0, 0);
    }
  }

  /** What `chunk_text` answers: an error on a non-positive target, nothing for a text of white space
      only, the whole text as one chunk when it fits, and several chunks otherwise. */
  lemma ChunkTextCases(text: string, target: int, overlap: int)
    ensures ChunkText(text, target, overlap).Err? <==> target <= 0
    ensures target > 0 ==>
              (ChunkText(text, target, overlap).value == [] <==> forall i :: 0 <= i < |text| ==> text[i] in WHITESPACE)
    ensures target > 0 && ChunkText(text, target, overlap).value != [] ==>
              (|ChunkText(text, target, overlap).value| == 1 <==> |text| <= target)
    ensures target > 0 && |text| <= target && ChunkText(text, target, overlap).value != [] ==>
              ChunkText(text, target, overlap).value == [Chunk(0, text, 0, |text|)]
  {
    BlankListed(text);
    if target > 0 && !Blank(text) && |text| > target {
      ChunkTextGood(text, target, overlap);
      assert Placed(text, target, ChunkText(text, target, overlap).value, 0);
    }
  }

  lemma BlankListed(text: string)
    ensures Blank(text) <==> forall i :: 0 <= i < |text| ==> text[i] in WHITESPACE
  {
    forall i | 0 <= i < |text|
      ensures IsSpace(text[i]) <==> text[i] in WHITESPACE
    {
      CharactersListed(text[i]);
    }
  }

  /** Every chunk but the last ends where the documentation says: in the back half of its window, after
      the last blank line there, else after the last line, else after the last sentence, and at the
      hard end only when the window has none of them. */
  lemma ChunksEndOnBoundaries(text: string, target: int, overlap: int, i: nat)
    requires target > 0 && ChunkText(text, target, overlap).Ok?
    requires i < |ChunkText(text, target, overlap).value|
    requires ChunkText(text, target, overlap).value[i].end < |text|
    ensures var c := ChunkText(text, target, overlap).value[i];
            var lo, hi := c.start + target / 2, c.start + target;
            lo < c.end <= hi < |text| && PreferredBreak(text, lo, hi, c.end)
  {
    ChunkTextGood(text, target, overlap);
    assert Placed(text, target, ChunkText(text, target, overlap).value, i);
    ChunkEndPrefers(text, target, ChunkText(text, target, overlap).value[i].start);
  }

  lemma ChunkEndPrefers(text: string, target: nat, pos: nat)
    requires target > 0 && pos < |text|
    requires ChunkEnd(text, target, pos) < |text|
    ensures pos + target / 2 < ChunkEnd(text, target, pos) <= pos + target < |text|
    ensures PreferredBreak(text, pos + target / 2, pos + target, ChunkEnd(text, target, pos))
  {
    BestBreakPrefers(text, pos + target / 2, pos + target);
  }

  /** Neighbouring chunks share the overlap asked for, clamped to leave each chunk a character of its
      own, and less only when the chunk before is that short. */
  lemma ChunksShareOverlap(text: string, target: int, overlap: int, i: nat)
    requires target > 0 && ChunkText(text, target, overlap).Ok?
    requires i + 1 < |ChunkText(text, target, overlap).value|
    ensures var a, b := ChunkText(text, target, overlap).value[i], ChunkText(text, target, overlap).value[i + 1];
            var asked := if overlap < 0 then 0 else if overlap >= target then target - 1 else overlap;
            && a.start < b.start <= a.end <= b.end
            && a.end - b.start == if asked < a.end - a.start then asked else a.end - a.start - 1
  {
    ChunkTextGood(text, target, overlap);
    assert Follows(ClampedOverlap(target, overlap), ChunkText(text, target, overlap).value, i);
  }

  predicate SharedPrefixFits(chunks: seq<Chunk>, i: nat)
    requires i + 1 < |chunks|
  {
    0 <= chunks[i].end - chunks[i + 1].start <= |chunks[i + 1].text|
  }

  /** Every later chunk is long enough to drop what it shares with the one before. */
  ghost predicate Rebuildable(chunks: seq<Chunk>) {
    forall i: nat :: i + 1 < |chunks| ==> SharedPrefixFits(chunks, i)
  }

  /** The first chunk, then each of the first `k` without the part it shares with the one before. */
  ghost function RebuildFirst(chunks: seq<Chunk>, k: nat): string
    requires Rebuildable(chunks) && k <= |chunks|
  {
    if k == 0 then ""
    else if k == 1 then chunks[0].text
    else
      assert SharedPrefixFits(chunks, k - 2);
      RebuildFirst(chunks, k - 1) + chunks[k - 1].text[chunks[k - 2].end - chunks[k - 1].start..]
  }

  ghost function Rebuild(chunks: seq<Chunk>): string
    requires Rebuildable(chunks)
  {
    RebuildFirst(chunks, |chunks|)
  }

  lemma GoodChunksFit(text: string, target: nat, overlap: nat, chunks: seq<Chunk>)
    requires target > 0
    requires GoodChunks(text, target, overlap, chunks)
    ensures Rebuildable(chunks)
  {
    forall i: nat | i + 1 < |chunks|
      ensures SharedPrefixFits(chunks, i)
    {
      assert Follows(overlap, chunks, i) && Placed(text, target, chunks, i + 1);
    }
  }

  lemma {:induction false} RebuildPrefix(text: string, target: nat, overlap: nat, chunks: seq<Chunk>, k: nat)
    requires target > 0
    requires GoodChunks(text, target, overlap, chunks) && Rebuildable(chunks)
    requires 0 < k <= |chunks| && chunks[0].start == 0
    ensures chunks[k - 1].end <= |text| && RebuildFirst(chunks, k) == text[..chunks[k - 1].end]
  {
    assert Placed(text, target, chunks, k - 1);
    if k > 1 {
      RebuildPrefix(text, target, overlap, chunks, k - 1);
      assert Follows(overlap, chunks, k - 2);
      JoinSlices(text, chunks[k - 1].start, chunks[k - 2].end, chunks[k - 1].end);
    }
  }

  lemma JoinSlices(text: string, start: nat, mid: nat, end: nat)
    requires start <= mid <= end <= |text|
    ensures text[..mid] + text[start..end][mid - start..] == text[..end]
  {
  }

  /** Nothing is lost: the chunks minus their overlaps spell out the text. */
  lemma ChunksRebuildText(text: string, target: int, overlap: int)
    requires target > 0 && !Blank(text)
    ensures ChunkText(text, target, overlap).Ok?
    ensures var chunks := ChunkText(text, target, overlap).value;
            && Rebuildable(chunks)
            && Rebuild(chunks) == text
  {
    ChunkTextGood(text, target, overlap);
    var chunks := ChunkText(text, target, overlap).value;
    GoodChunksFit(text, target, ClampedOverlap(target, overlap), chunks);
    RebuildPrefix(text, target, ClampedOverlap(target, overlap), chunks, |chunks|);
    assert Placed(text, target, chunks, |chunks| - 1);
  }

  /** With an overlap of at most half the target every chunk moves on by at least
      `target / 2 + 1 - overlap`, in its start and past the previous end. */
  lemma {:induction false} SteadyProgress(text: string, target: nat, overlap: nat, chunks: seq<Chunk>, i: nat)
    requires target > 0 && GoodChunks(text, target, overlap, chunks)
    requires overlap <= target / 2
    requires i < |chunks|
    ensures i * (target / 2 + 1 - overlap) <= chunks[i].start
    ensures i + 1 < |chunks| ==> chunks[i].end < chunks[i + 1].end
  {
    assert Placed(text, target, chunks, i);
    if i + 1 < |chunks| {
      assert Follows(overlap, chunks, i) && Placed(text, target, chunks, i + 1);
    }
    if i > 0 {
      SteadyProgress(text, target, overlap, chunks, i - 1);
      assert Follows(overlap, chunks, i - 1) && Placed(text, target, chunks, i - 1);
      var d := target / 2 + 1 - overlap;
      assert i * d == (i - 1) * d + d;
    }
  }

  /** The number of chunks is bounded by the length of the text. */
  lemma ChunkCountBound(text: string, target: int, overlap: int)
    requires target > 0 && !Blank(text)
    requires ClampedOverlap(target, overlap) <= target / 2
    ensures ChunkText(text, target, overlap).Ok?
    ensures |ChunkText(text, target, overlap).value| <=
            1 + (|text| - 1) / (target / 2 + 1 - ClampedOverlap(target, overlap))
  {
    ChunkTextGood(text, target, overlap);
    var chunks := ChunkText(text, target, overlap).value;
    var step := ClampedOverlap(target, overlap);
    var last := |chunks| - 1;
    SteadyProgress(text, target, step, chunks, last);
    assert Placed(text, target, chunks, last);
    QuotientAtLeast(last, target / 2 + 1 - step, |text| - 1);
  }

  lemma QuotientAtLeast(k: nat, d: nat, m: nat)
    requires d > 0 && k * d <= m
    ensures k <= m / d
  {
    var quotient, remainder := m / d, m % d;
    assert m == quotient * d + remainder;
    assert (quotient + 1) * d == quotient * d + d;
    if quotient < k {
      TimesMonotone(quotient + 1, k, d);
      assert false;
    }
  }

  lemma TimesMonotone(a: nat, b: nat, d: nat)
    requires a <= b
    ensures a * d <= b * d
  {
    assert b * d == a * d + (b - a) * d;
  }
}
