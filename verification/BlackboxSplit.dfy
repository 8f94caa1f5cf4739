/** Splitting a file that holds several blackbox logs at the logs' headers. */
module BlackboxSplit {
  import opened Framing

  const NEWLINE: byte := 10

  /** "H Product:Blackbox ". */
  const MAKE: seq<byte> := [72, 32, 80, 114, 111, 100, 117, 99, 116, 58, 66, 108, 97, 99, 107, 98, 111, 120, 32]

  /** "flight data recorder ". */
  const KIND: seq<byte> := [102, 108, 105, 103, 104, 116, 32, 100, 97, 116, 97, 32, 114, 101, 99, 111, 114, 100, 101, 114, 32]

  /** "by Nicholas Sherlock". */
  const AUTHOR: seq<byte> := [98, 121, 32, 78, 105, 99, 104, 111, 108, 97, 115, 32, 83, 104, 101, 114, 108, 111, 99, 107]

  const HEADER: seq<byte> := MAKE + KIND + AUTHOR + [NEWLINE]

  datatype Segment = Segment(offset: nat, length: nat)

  datatype FState = Unknown | Opened | Writing

  /** The header stands at position i. */
  predicate HeaderAt(s: seq<byte>, i: int) {
    0 <= i <= |s| - |HEADER| && s[i..i + |HEADER|] == HEADER
  }

  lemma HeaderIsOneLine()
    ensures HEADER != [] && HEADER[|HEADER| - 1] == NEWLINE && forall j | 0 <= j < |HEADER| - 1 :: HEADER[j] != NEWLINE
  {
    assert NEWLINE !in MAKE;
    assert NEWLINE !in KIND;
    assert NEWLINE !in AUTHOR;
    hide MAKE, KIND, AUTHOR;
    forall j | 0 <= j < |HEADER| - 1 ensures HEADER[j] != NEWLINE {
      assert HEADER[j] in MAKE || HEADER[j] in KIND || HEADER[j] in AUTHOR;
    }
  }

  /** The segments start exactly at the headers of s, are adjacent, and reach to its end. */
  ghost predicate Cuts(s: seq<byte>, segs: seq<Segment>) {
    && segs != []
    && (forall k | 0 <= k < |segs| :: HeaderAt(s, segs[k].offset))
    && (forall k | 0 <= k < |segs| - 1 :: segs[k].offset + segs[k].length == segs[k + 1].offset && segs[k].length > 0)
    && segs[|segs| - 1].offset + segs[|segs| - 1].length == |s|
    && (forall i | HeaderAt(s, i) :: Starts(segs, i))
  }

  /** One of the segments starts at i. */
  ghost predicate Starts(segs: seq<Segment>, i: int) {
    exists k :: 0 <= k < |segs| && segs[k].offset == i
  }

  /** The line of s that starts at pos, as far as the newline or the end. */
  predicate IsLine(s: seq<byte>, pos: nat, size: nat) {
    && pos + size <= |s| && (size == 0 ==> pos == |s|)
    && (forall j | pos <= j < pos + size - 1 :: s[j] != NEWLINE)
    && (pos + size < |s| ==> s[pos + size - 1] == NEWLINE)
  }

  /** Lines start after a newline. */
  predicate AtLine(s: seq<byte>, pos: nat) {
    pos <= |s| && (0 < pos < |s| ==> s[pos - 1] == NEWLINE)
  }

  method ReadUntil(s: seq<byte>, pos: nat) returns (size: nat)
    requires pos <= |s|
    ensures IsLine(s, pos, size)
  {
    size := 0;
    while pos + size < |s|
      invariant pos + size <= |s| && forall j | pos <= j < pos + size :: s[j] != NEWLINE
      decreases |s| - pos - size
    {
      size := size + 1;
      if s[pos + size - 1] == NEWLINE {
        return;
      }
    }
  }

  lemma HeaderBytes(s: seq<byte>, i: nat)
    requires HeaderAt(s, i)
    ensures s[i + |HEADER| - 1] == NEWLINE && forall j | i <= j < i + |HEADER| - 1 :: s[j] != NEWLINE
  {
    HeaderIsOneLine();
    hide HEADER;
    assert s[i..i + |HEADER|][|HEADER| - 1] == s[i + |HEADER| - 1];
    forall j | i <= j < i + |HEADER| - 1 ensures s[j] != NEWLINE {
      assert s[i..i + |HEADER|][j - i] == s[j];
    }
  }

  /** A header that ends with a line or before it, but not before its start, is the end of the line. */
  lemma NewHeaderEndsLine(s: seq<byte>, pos: nat, size: nat, i: nat)
    requires AtLine(s, pos) && IsLine(s, pos, size) && size > 0
    requires HeaderAt(s[..pos + size], i) && i + |HEADER| > pos
    ensures i + |HEADER| == pos + size && i >= pos
  {
    var t := s[..pos + size];
    HeaderBytes(t, i);
    HeaderIsOneLine();
    hide HEADER;
    assert t[i + |HEADER| - 1] == s[i + |HEADER| - 1];
    if 0 < pos {
      assert t[pos - 1] == s[pos - 1];
    }
  }

  /** The headers of a string with one more line are the old ones and possibly one at its end. */
  lemma HeadersOf(s: seq<byte>, pos: nat, size: nat, i: int)
    requires AtLine(s, pos) && IsLine(s, pos, size) && size > 0 && HeaderAt(s[..pos + size], i)
    ensures HeaderAt(s[..pos], i) || (i == pos + size - |HEADER| && size >= |HEADER|)
  {
    hide HEADER;
    if i + |HEADER| <= pos {
      assert s[..pos][i..i + |HEADER|] == s[..pos + size][i..i + |HEADER|];
    } else {
      NewHeaderEndsLine(s, pos, size, i);
    }
  }

  /** Headers stay where they are when the string grows. */
  lemma HeaderStays(s: seq<byte>, m: nat, n: nat, i: nat)
    requires m <= n <= |s| && HeaderAt(s[..m], i)
    ensures HeaderAt(s[..n], i)
  {
    hide HEADER;
    assert s[..n][i..i + |HEADER|] == s[..m][i..i + |HEADER|];
  }

  lemma HeaderRange(s: seq<byte>, i: int)
    requires HeaderAt(s, i)
    ensures 0 <= i <= |s| - |HEADER|
  {
  }

  ghost predicate NoHeader(s: seq<byte>) {
    forall i :: !HeaderAt(s, i)
  }

  /** What the loop has found in the first pos bytes. */
  ghost predicate Found(s: seq<byte>, pos: nat, fstate: FState, bbls: seq<Segment>, seg: Segment) {
    && AtLine(s, pos)
    && match fstate
       case Unknown => NoHeader(s[..pos]) && bbls == [] && seg == Segment(0, 0)
       case Opened => false
       case Writing => Cuts(s[..pos], bbls + [seg])
  }

  /** A string grown by bytes without a header: the last segment grows with it. */
  lemma LastGrows(was: seq<byte>, now: seq<byte>, segs: seq<Segment>, length: nat)
    requires Cuts(was, segs) && segs[|segs| - 1].offset + length == |now|
    requires forall i | HeaderAt(was, i) :: HeaderAt(now, i)
    requires forall i | HeaderAt(now, i) :: HeaderAt(was, i)
    ensures Cuts(now, segs[|segs| - 1 := Segment(segs[|segs| - 1].offset, length)])
  {
    hide HeaderAt, Starts;
    var more := segs[|segs| - 1 := Segment(segs[|segs| - 1].offset, length)];
    assert forall k | 0 <= k < |segs| :: more[k].offset == segs[k].offset;
    assert forall k | 0 <= k < |segs| - 1 :: more[k] == segs[k];
    forall i | HeaderAt(now, i) ensures Starts(more, i) {
      SameStarts(segs, more, i);
    }
  }

  lemma SameStarts(segs: seq<Segment>, more: seq<Segment>, i: int)
    requires Starts(segs, i) && |segs| <= |more| && forall k | 0 <= k < |segs| :: more[k].offset == segs[k].offset
    ensures Starts(more, i)
  {
    var k :| 0 <= k < |segs| && segs[k].offset == i;
    assert more[k].offset == i;
  }

  /** One more header, where the last segment ends. */
  lemma OneMore(was: seq<byte>, now: seq<byte>, segs: seq<Segment>, b: Segment)
    requires Cuts(was, segs) && HeaderAt(now, b.offset) && b.offset == |was| && b.offset + b.length == |now|
    requires segs[|segs| - 1].length > 0
    requires forall i | HeaderAt(was, i) :: HeaderAt(now, i)
    requires forall i | HeaderAt(now, i) :: HeaderAt(was, i) || i == b.offset
    ensures Cuts(now, segs + [b])
  {
    hide HeaderAt, Starts;
    var more := segs + [b];
    assert forall k | 0 <= k < |segs| :: more[k] == segs[k];
    forall i | HeaderAt(now, i) ensures Starts(more, i) {
      if HeaderAt(was, i) {
        SameStarts(segs, more, i);
      } else {
        StartsLast(segs, b);
      }
    }
  }

  lemma StartsLast(segs: seq<Segment>, b: Segment)
    ensures Starts(segs + [b], b.offset)
  {
    assert (segs + [b])[|segs|] == b;
  }

  /** Headers before and after one more line. */
  lemma HeadersKept(s: seq<byte>, pos: nat, size: nat, i: int)
    requires pos + size <= |s| && HeaderAt(s[..pos], i)
    ensures HeaderAt(s[..pos + size], i)
  {
    HeaderStays(s, pos, pos + size, i);
  }

  /** A line without a header at its end. */
  lemma PlainLine(s: seq<byte>, pos: nat, size: nat, fstate: FState, bbls: seq<Segment>, seg: Segment)
    requires Found(s, pos, fstate, bbls, seg) && IsLine(s, pos, size) && size > 0
    requires !HeaderAt(s[..pos + size], pos + size - |HEADER|) || size < |HEADER|
    ensures Found(s, pos + size, fstate, bbls, if fstate == Writing then seg.(length := seg.length + size) else seg)
  {
    hide HEADER, HeaderAt, Cuts;
    var was, now := s[..pos], s[..pos + size];
    forall i: int | HeaderAt(now, i) ensures HeaderAt(was, i) {
      HeadersOf(s, pos, size, i);
    }
    forall i: int | HeaderAt(was, i) ensures HeaderAt(now, i) {
      HeadersKept(s, pos, size, i);
    }
    if fstate == Writing {
      var segs := bbls + [seg];
      EndOf(was, segs);
      LastGrows(was, now, segs, seg.length + size);
      assert segs[|segs| - 1 := Segment(seg.offset, seg.length + size)] == bbls + [seg.(length := seg.length + size)];
    }
  }

  lemma EndOf(s: seq<byte>, segs: seq<Segment>)
    requires Cuts(s, segs)
    ensures segs != [] && segs[|segs| - 1].offset + segs[|segs| - 1].length == |s|
    ensures HeaderAt(s, segs[|segs| - 1].offset)
  {
    hide HeaderAt;
  }

  /** A line that ends in a header, with whatever stands before it on the line. */
  lemma HeaderLine(s: seq<byte>, pos: nat, size: nat, fstate: FState, bbls: seq<Segment>, seg: Segment)
    requires Found(s, pos, fstate, bbls, seg) && IsLine(s, pos, size) && size >= |HEADER|
    requires HeaderAt(s[..pos + size], pos + size - |HEADER|)
    ensures var more := if fstate == Unknown then [] else [seg.(length := seg.length + size - |HEADER|)];
      Found(s, pos + size, Writing, bbls + more, Segment(pos + size - |HEADER|, |HEADER|))
  {
    HeaderIsOneLine();
    hide HEADER, HeaderAt, Cuts;
    var start := pos + size - |HEADER|;
    var was, now := s[..pos], s[..pos + size];
    var b := Segment(start, |HEADER|);
    forall i: int | HeaderAt(now, i) ensures HeaderAt(was, i) || i == start {
      HeadersOf(s, pos, size, i);
    }
    forall i: int | HeaderAt(was, i) ensures HeaderAt(now, i) {
      HeadersKept(s, pos, size, i);
    }
    if fstate == Writing {
      var segs := bbls + [seg];
      EndOf(was, segs);
      HeaderRange(was, seg.offset);
      NoneBefore(s, pos, size);
      var mid := s[..start];
      LastGrows(was, mid, segs, seg.length + size - |HEADER|);
      var more := segs[|segs| - 1 := Segment(seg.offset, seg.length + size - |HEADER|)];
      assert more == bbls + [seg.(length := seg.length + size - |HEADER|)];
      OneMore(mid, now, more, b);
    } else {
      assert bbls + [] + [b] == [b];
      FirstSegment(now, b);
    }
  }

  lemma FirstSegment(s: seq<byte>, b: Segment)
    requires HeaderAt(s, b.offset) && b.offset + b.length == |s| && forall i | HeaderAt(s, i) :: i == b.offset
    ensures Cuts(s, [b])
  {
    hide HeaderAt;
    assert [b][0] == b;
  }

  /** Before the header at the end of a line the string has the headers it had before the line. */
  lemma NoneBefore(s: seq<byte>, pos: nat, size: nat)
    requires AtLine(s, pos) && IsLine(s, pos, size) && size >= |HEADER| > 0
    ensures forall i | HeaderAt(s[..pos], i) :: HeaderAt(s[..pos + size - |HEADER|], i)
    ensures forall i | HeaderAt(s[..pos + size - |HEADER|], i) :: HeaderAt(s[..pos], i) && HeaderAt(s[..pos + size], i)
  {
    hide HEADER, HeaderAt;
    var was, mid, now := s[..pos], s[..pos + size - |HEADER|], s[..pos + size];
    forall i: int | HeaderAt(was, i) ensures HeaderAt(mid, i) {
      HeaderRange(was, i);
      HeaderStays(s, pos, pos + size - |HEADER|, i);
    }
    forall i: int | HeaderAt(mid, i) ensures HeaderAt(was, i) && HeaderAt(now, i) {
      HeaderRange(mid, i);
      HeaderStays(s, pos + size - |HEADER|, pos + size, i);
      HeadersOf(s, pos, size, i);
    }
  }

  /** The segmentation loop. A file without a header yields one empty segment. */
  method GetMeta(file: seq<byte>) returns (bbls: seq<Segment>)
    ensures if NoHeader(file) then bbls == [Segment(0, 0)] else Cuts(file, bbls)
  {
    hide Found, HeaderAt, HEADER;
    var fstate, asize, seg := Unknown, 0, Segment(0, 0);
    bbls := [];
    NothingFound(file);
    while true
      invariant Found(file, asize, fstate, bbls, seg) && asize <= |file| && fstate != Opened
      decreases |file| - asize
    {
      var size := ReadUntil(file, asize);
      if size == 0 {
        break;
      }
      ghost var pos := asize;
      asize := asize + size;
      var hdiff := size - |HEADER|;
      if hdiff >= 0 && file[asize - size..asize][hdiff..] == HEADER {
        EndsLine(file, asize, size);
        HeaderLine(file, pos, size, fstate, bbls, seg);
        if fstate != Unknown {
          seg := seg.(length := seg.length + hdiff);
          bbls := bbls + [seg];
        } else {
          assert bbls + [] == bbls;
        }
        fstate := Opened;
        seg := seg.(offset := asize - |HEADER|);
      } else {
        if hdiff >= 0 {
          EndsLine(file, asize, size);
        }
        PlainLine(file, pos, size, fstate, bbls, seg);
      }
      match fstate {
        case Opened =>
          fstate := Writing;
          seg := seg.(length := |HEADER|);
        case Writing =>
          seg := seg.(length := seg.length + size);
        case Unknown =>
      }
    }
    WholeFile(file, fstate, bbls, seg);
    bbls := bbls + [seg];
  }

  lemma NothingFound(s: seq<byte>)
    ensures Found(s, 0, Unknown, [], Segment(0, 0))
  {
    HeaderIsOneLine();
    forall i: int ensures !HeaderAt(s[..0], i) {
    }
  }

  lemma EndsLine(s: seq<byte>, end: nat, size: nat)
    requires |HEADER| <= size <= end <= |s|
    ensures HeaderAt(s[..end], end - |HEADER|) <==> s[end - size..end][size - |HEADER|..] == HEADER
  {
    hide HEADER;
    assert s[..end][end - |HEADER|..end] == s[end - size..end][size - |HEADER|..];
  }

  lemma WholeFile(s: seq<byte>, fstate: FState, bbls: seq<Segment>, seg: Segment)
    requires Found(s, |s|, fstate, bbls, seg)
    ensures if NoHeader(s) then bbls + [seg] == [Segment(0, 0)] else Cuts(s, bbls + [seg])
  {
    hide HeaderAt;
    assert s[..|s|] == s;
  }

  // ---------- the files written ----------

  function Piece(file: seq<byte>, b: Segment): (r: seq<byte>)
    requires b.offset + b.length <= |file|
  {
    file[b.offset..b.offset + b.length]
  }

  function Joined(parts: seq<seq<byte>>): seq<byte> {
    if parts == [] then [] else Joined(parts[..|parts| - 1]) + parts[|parts| - 1]
  }

  /** The segments lie in the file in order, each as long as a header or, at the end, at least that. */
  lemma {:induction false} InOrder(file: seq<byte>, segs: seq<Segment>, j: nat, k: nat)
    requires Cuts(file, segs) && j <= k < |segs|
    ensures segs[k].offset + segs[k].length <= |file|
    ensures j < k ==> segs[j].offset + segs[j].length <= segs[k].offset
    decreases |segs| - j
  {
    if j < k {
      InOrder(file, segs, j + 1, k);
    } else if k < |segs| - 1 {
      InOrder(file, segs, k + 1, k + 1);
    }
  }

  lemma JoinedGrows(parts: seq<seq<byte>>, k: nat)
    requires k < |parts|
    ensures Joined(parts[..k + 1]) == (if k == 0 then [] else Joined(parts[..k])) + parts[k]
  {
    assert parts[..k + 1][..k] == parts[..k];
  }

  lemma Adjacent(file: seq<byte>, segs: seq<Segment>, k: nat)
    requires Cuts(file, segs) && k < |segs| - 1
    ensures segs[k].offset + segs[k].length == segs[k + 1].offset
  {
  }

  lemma Glue(s: seq<byte>, a: nat, b: nat, c: nat)
    requires a <= b <= c <= |s|
    ensures s[a..b] + s[b..c] == s[a..c]
  {
  }

  /** The first k + 1 segments hold everything from the first header to the end of the last of them. */
  lemma {:induction false} PiecesJoin(file: seq<byte>, segs: seq<Segment>, parts: seq<seq<byte>>, k: nat)
    requires Cuts(file, segs) && k < |segs| == |parts|
    requires forall i | 0 <= i < |segs| :: segs[i].offset + segs[i].length <= |file| && parts[i] == Piece(file, segs[i])
    ensures segs[0].offset <= segs[k].offset + segs[k].length
    ensures Joined(parts[..k + 1]) == file[segs[0].offset..segs[k].offset + segs[k].length]
  {
    hide HeaderAt, HEADER, Cuts, Joined;
    var b := segs[k].offset;
    JoinedGrows(parts, k);
    if k > 0 {
      PiecesJoin(file, segs, parts, k - 1);
      InOrder(file, segs, k - 1, k);
      Adjacent(file, segs, k - 1);
      Glue(file, segs[0].offset, b, b + segs[k].length);
    }
  }

  ghost predicate First(file: seq<byte>, i: nat) {
    HeaderAt(file, i) && forall j: nat | j < i :: !HeaderAt(file, j)
  }

  /** A log: it starts with a header and holds no other. */
  ghost predicate OneLog(s: seq<byte>) {
    HeaderAt(s, 0) && forall i: nat | i > 0 :: !HeaderAt(s, i)
  }

  ghost predicate TwoLogs(file: seq<byte>) {
    exists i: nat, j: nat :: HeaderAt(file, i) && HeaderAt(file, j) && i < j
  }

  lemma SegmentStarts(file: seq<byte>, segs: seq<Segment>, k: nat)
    requires Cuts(file, segs) && k < |segs|
    ensures segs[k].length >= |HEADER| && segs[k].offset + segs[k].length <= |file|
  {
    InOrder(file, segs, k, k);
    if k < |segs| - 1 {
      HeadersApart(file, segs[k].offset, segs[k + 1].offset);
    }
  }

  /** Two headers never overlap. */
  lemma HeadersApart(s: seq<byte>, i: nat, j: nat)
    requires HeaderAt(s, i) && HeaderAt(s, j) && i < j
    ensures i + |HEADER| <= j
  {
    HeaderBytes(s, i);
    HeaderBytes(s, j);
    hide HEADER;
  }

  lemma PieceIsOneLog(file: seq<byte>, segs: seq<Segment>, k: nat)
    requires Cuts(file, segs) && k < |segs|
    ensures segs[k].offset + segs[k].length <= |file| && OneLog(Piece(file, segs[k]))
  {
    SegmentStarts(file, segs, k);
    hide HEADER, Cuts;
    var b := segs[k];
    var p := Piece(file, b);
    CutsAt(file, segs, k);
    SliceOfPiece(file, b, 0, |HEADER|);
    forall i: nat | i > 0 ensures !HeaderAt(p, i) {
      if HeaderAt(p, i) {
        HeaderIsOneLine();
        SliceOfPiece(file, b, i, |HEADER|);
        NoHeaderInside(file, segs, k, b.offset + i);
      }
    }
  }

  lemma SliceOfPiece(file: seq<byte>, b: Segment, i: nat, n: nat)
    requires b.offset + b.length <= |file| && i + n <= b.length
    ensures Piece(file, b)[i..i + n] == file[b.offset + i..b.offset + i + n]
  {
    var p, q := Piece(file, b), file[b.offset + i..b.offset + i + n];
    forall j | 0 <= j < n ensures p[i..i + n][j] == q[j] {
      assert p[i + j] == file[b.offset + i + j];
    }
  }

  lemma CutsAt(file: seq<byte>, segs: seq<Segment>, k: nat)
    requires Cuts(file, segs) && k < |segs|
    ensures HeaderAt(file, segs[k].offset)
  {
  }

  /** No header starts inside a segment. */
  lemma NoHeaderInside(file: seq<byte>, segs: seq<Segment>, k: nat, i: nat)
    requires Cuts(file, segs) && k < |segs| && segs[k].offset < i
    requires i < segs[k].offset + segs[k].length
    ensures !HeaderAt(file, i)
  {
    hide HeaderAt, HEADER;
    if HeaderAt(file, i) {
      var j :| 0 <= j < |segs| && segs[j].offset == i;
      if j < k {
        InOrder(file, segs, j, k);
      } else {
        InOrder(file, segs, k, j);
      }
      assert false;
    }
  }

  lemma FirstIsFirst(file: seq<byte>, segs: seq<Segment>, i: nat)
    requires Cuts(file, segs) && First(file, i)
    ensures segs[0].offset == i
  {
    hide HeaderAt, HEADER;
    var k :| 0 <= k < |segs| && segs[k].offset == i;
    InOrder(file, segs, 0, k);
    CutsAt(file, segs, 0);
  }

  lemma ManySegments(file: seq<byte>, segs: seq<Segment>)
    requires Cuts(file, segs)
    ensures |segs| > 1 <==> TwoLogs(file)
  {
    hide HeaderAt, HEADER;
    if |segs| > 1 {
      CutsAt(file, segs, 0);
      CutsAt(file, segs, 1);
      InOrder(file, segs, 0, 1);
    }
    if TwoLogs(file) {
      var i: nat, j: nat :| HeaderAt(file, i) && HeaderAt(file, j) && i < j;
      var k :| 0 <= k < |segs| && segs[k].offset == i;
      var l :| 0 <= l < |segs| && segs[l].offset == j;
    }
  }

  /** What is saved: nothing for a file with fewer than two headers; otherwise one log each, which together are the
      file from its first header on. */
  method Save(file: seq<byte>) returns (files: seq<seq<byte>>)
    ensures files != [] <==> TwoLogs(file)
    ensures forall k | 0 <= k < |files| :: OneLog(files[k])
    ensures forall i: nat | files != [] && First(file, i) :: i <= |file| && Joined(files) == file[i..]
  {
    hide HeaderAt, HEADER, OneLog, TwoLogs, Cuts, First;
    var bbls := GetMeta(file);
    files := [];
    if |bbls| > 1 {
      ManySegments(file, bbls);
      for i := 0 to |bbls|
        invariant |files| == i && forall k | 0 <= k < i :: OneLog(files[k])
        invariant forall k | 0 <= k < i :: bbls[k].offset + bbls[k].length <= |file| && files[k] == Piece(file, bbls[k])
      {
        PieceIsOneLog(file, bbls, i);
        files := files + [Piece(file, bbls[i])];
      }
      AllSaved(file, bbls, files);
    } else if !NoHeader(file) {
      ManySegments(file, bbls);
    } else {
      NoLogs(file);
    }
  }

  lemma NoLogs(file: seq<byte>)
    requires NoHeader(file)
    ensures !TwoLogs(file)
  {
    hide HeaderAt, HEADER;
  }

  lemma AllSaved(file: seq<byte>, segs: seq<Segment>, parts: seq<seq<byte>>)
    requires Cuts(file, segs) && |segs| == |parts|
    requires forall i | 0 <= i < |segs| :: segs[i].offset + segs[i].length <= |file| && parts[i] == Piece(file, segs[i])
    ensures forall i: nat | First(file, i) :: i <= |file| && Joined(parts) == file[i..]
  {
    hide HeaderAt, HEADER;
    PiecesJoin(file, segs, parts, |segs| - 1);
    assert parts[..|segs|] == parts;
    forall i: nat | First(file, i) ensures i <= |file| && Joined(parts) == file[i..] {
      FirstIsFirst(file, segs, i);
    }
  }
}
