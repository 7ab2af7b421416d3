/** Copying a match: inflate_fast's way from the circular window and the output, and the resumable one of
    the MATCH state. Both equal the byte-by-byte copy. */
module InflateCopy {
  import opened Lz77
  import opened InflateWindow

  /** What has been output in all: the history, and the output from beg to p. */
  ghost function Output(history: seq<byte>, out: seq<byte>, beg: nat, p: nat): (r: seq<byte>)
    requires beg <= p <= |out|
    ensures |r| == |history| + (p - beg)
  {
    history + out[beg..p]
  }

  /** From p0 to p, every byte repeats the one dist back; nothing else has changed. */
  ghost predicate Copied(history: seq<byte>, was: seq<byte>, out: seq<byte>, beg: nat, p0: nat, p: nat, dist: nat) {
    && beg <= p0 <= p <= |out| == |was| && 1 <= dist <= |history| + (p0 - beg)
    && out[..p0] == was[..p0] && out[p..] == was[p..]
    && forall i :: p0 <= i < p ==> out[i] == Source(history, out, beg, i, dist)
  }

  /** The byte dist before position i of the output. */
  ghost function Source(history: seq<byte>, out: seq<byte>, beg: nat, i: nat, dist: nat): byte
    requires beg <= i <= |out| && 1 <= dist <= |history| + (i - beg)
  {
    if i - beg >= dist then out[i - dist] else history[|history| - (dist - (i - beg))]
  }

  /** The copy is that of the token's meaning. */
  lemma CopiedIsMatch(history: seq<byte>, was: seq<byte>, out: seq<byte>, beg: nat, p0: nat, p: nat, dist: nat)
    requires Copied(history, was, out, beg, p0, p, dist)
    ensures Output(history, out, beg, p) == CopyMatch(Output(history, was, beg, p0), p - p0, dist)
  {
    var all := Output(history, out, beg, p);
    var q := |history| + (p0 - beg);
    assert all[..q] == Output(history, was, beg, p0);
    forall i | q <= i < q + (p - p0)
      ensures all[i] == all[i - dist]
    {
      var j := i - |history| + beg;
      assert all[i] == out[j];
      assert out[j] == Source(history, out, beg, j, dist);
    }
    CopyRepeats(all, q, dist, p - p0);
    assert all[..q + (p - p0)] == all;
  }

  /** n bytes from the window. */
  method FromWindow(window: array<byte>, from: nat, out: array<byte>, p: nat, n: nat)
    requires out != window && from + n <= window.Length && p + n <= out.Length
    modifies out
    ensures out[..p] == old(out[..p]) && out[p + n..] == old(out[p + n..])
    ensures forall i :: p <= i < p + n ==> out[i] == window[i - p + from]
  {
    for k := 0 to n
      invariant out[..p] == old(out[..p]) && out[p + n..] == old(out[p + n..])
      invariant forall i :: p <= i < p + k ==> out[i] == window[i - p + from]
    {
      out[p + k] := window[from + k];
    }
  }

  /** len bytes from the output itself, in threes. */
  method FromOutput(out: array<byte>, dist: nat, p0: nat, len0: nat)
    requires 1 <= dist <= p0 && p0 + len0 <= out.Length
    modifies out
    ensures out[..p0] == old(out[..p0]) && out[p0 + len0..] == old(out[p0 + len0..])
    ensures forall i :: p0 <= i < p0 + len0 ==> out[i] == out[i - dist]
  {
    var len: nat, p: nat := len0, p0;
    while len > 2
      invariant p == p0 + (len0 - len) && len <= len0
      invariant out[..p0] == old(out[..p0]) && out[p0 + len0..] == old(out[p0 + len0..])
      invariant forall i :: p0 <= i < p ==> out[i] == out[i - dist]
    {
      out[p] := out[p - dist];
      out[p + 1] := out[p + 1 - dist];
      out[p + 2] := out[p + 2 - dist];
      p := p + 3;
      len := len - 3;
    }
    if len != 0 {
      out[p] := out[p - dist];
      if len > 1 {
        out[p + 1] := out[p + 1 - dist];
      }
    }
  }

  /** The bytes of the window that a distance reaching op bytes before beg starts with: from an index, how
      many before the end of the window or of what it holds. */
  lemma WindowBytes(window: seq<byte>, wnext: nat, whave: nat, history: seq<byte>, op: nat)
    requires Holds(window, wnext, whave, history) && 1 <= op <= whave
    ensures op <= wnext || wnext == 0 ==>
      Segment(window, (if wnext == 0 then |window| else wnext) - op, op, history, op)
    ensures wnext != 0 && wnext < op ==>
      Segment(window, |window| + wnext - op, op - wnext, history, op) && Segment(window, 0, wnext, history, wnext)
  {
    if op <= wnext || wnext == 0 {
      var from := (if wnext == 0 then |window| else wnext) - op;
      forall j | from <= j < from + op
        ensures window[j] == history[j - from + |history| - op]
      {
        assert At(wnext, op - (j - from), |window|) == j;
      }
    } else {
      var from := |window| + wnext - op;
      forall j | from <= j < |window|
        ensures window[j] == history[j - from + |history| - op]
      {
        assert At(wnext, op - (j - from), |window|) == j;
      }
      forall j | 0 <= j < wnext
        ensures window[j] == history[j + |history| - wnext]
      {
        assert At(wnext, wnext - j, |window|) == j;
      }
    }
  }

  /** n bytes of the window at from are those of the history that begin op back. */
  ghost predicate Segment(window: seq<byte>, from: int, n: nat, history: seq<byte>, op: nat) {
    && 0 <= from && from + n <= |window| && n <= op <= |history|
    && forall j :: from <= j < from + n ==> window[j] == history[j - from + |history| - op]
  }

  /** The match copy of inflate_fast; false if the distance is too far back. */
  method FastCopy(s: InflateState, out: array<byte>, beg: nat, p: nat, dist: nat, len0: nat, ghost history: seq<byte>) returns (ok: bool)
    requires Holds(s.window[..], s.wnext, s.whave, history) && out != s.window
    requires beg <= p && p + len0 <= out.Length && dist >= 1 && len0 >= 1
    modifies out
    ensures ok == (dist <= s.whave + (p - beg))
    ensures ok ==> Copied(history, old(out[..]), out[..], beg, p, p + len0, dist)
    ensures !ok ==> out[..] == old(out[..])
  {
    hide Holds, Copied, Segment;
    ghost var was := out[..];
    var op := p - beg;
    CopyBegins(history, was, beg, p, dist);
    if dist <= op {
      FromOutput(out, dist, p, len0);
      CopyOn(history, was, was, out[..], beg, p, p, len0, dist);
      return true;
    }
    op := dist - op;
    if op > s.whave {
      return false;
    }
    WindowBytes(s.window[..], s.wnext, s.whave, history, op);
    WindowFits(s.window[..], s.wnext, s.whave, history);
    var len: nat, q: nat := len0, p;
    var wsize := s.window.Length;
    if s.wnext == 0 || op <= s.wnext {
      var from := (if s.wnext == 0 then wsize else s.wnext) - op;
      q, len := CopySegment(s.window, from, op, out, q, len, was, history, beg, p, dist);
    } else {
      q, len := CopySegment(s.window, wsize + s.wnext - op, op - s.wnext, out, q, len, was, history, beg, p, dist);
      if len > 0 {
        q, len := CopySegment(s.window, 0, s.wnext, out, q, len, was, history, beg, p, dist);
      }
    }
    if len > 0 {
      ghost var before := out[..];
      FromOutput(out, dist, q, len);
      CopyOn(history, was, before, out[..], beg, p, q, len, dist);
    }
    return true;
  }

  /** At most n bytes of a segment of the window. */
  method CopySegment(window: array<byte>, from: nat, n0: nat, out: array<byte>, q: nat, len: nat, ghost was: seq<byte>, ghost history: seq<byte>,
                     ghost beg: nat, ghost p: nat, ghost dist: nat) returns (q': nat, len': nat)
    requires out != window && Copied(history, was, out[..], beg, p, q, dist) && q + len <= out.Length && beg <= q < beg + dist
    requires Segment(window[..], from, n0, history, dist - (q - beg))
    modifies out
    ensures q' + len' == q + len && q' == q + (if n0 < len then n0 else len) && Copied(history, was, out[..], beg, p, q', dist)
  {
    hide Copied;
    ghost var before := out[..];
    var n := if n0 < len then n0 else len;
    FromWindow(window, from, out, q, n);
    SegmentOn(window[..], from, n0, history, was, before, out[..], beg, p, q, n, dist);
    q', len' := q + n, len - n;
  }

  lemma CopyBegins(history: seq<byte>, was: seq<byte>, beg: nat, p: nat, dist: nat)
    requires beg <= p <= |was|
    ensures 1 <= dist <= |history| + (p - beg) ==> Copied(history, was, was, beg, p, p, dist)
  {
  }

  /** Bytes copied from the output continue the copy. */
  lemma CopyOn(history: seq<byte>, was: seq<byte>, before: seq<byte>, after: seq<byte>, beg: nat, p: nat, q: nat, n: nat, dist: nat)
    requires Copied(history, was, before, beg, p, q, dist) && dist <= q - beg && q + n <= |before| == |after|
    requires after[..q] == before[..q] && after[q + n..] == before[q + n..]
    requires forall i :: q <= i < q + n ==> after[i] == after[i - dist]
    ensures Copied(history, was, after, beg, p, q + n, dist)
  {
    SameOutside(was, before, after, p, q, n);
    forall i | p <= i < q + n
      ensures after[i] == Source(history, after, beg, i, dist)
    {
      if i < q {
        SameBefore(before, after, q, i);
        assert before[i] == Source(history, before, beg, i, dist);
        if i - beg >= dist {
          SameBefore(before, after, q, i - dist);
        }
      }
    }
  }

  /** So do bytes of the window. */
  lemma SegmentOn(window: seq<byte>, from: nat, n0: nat, history: seq<byte>, was: seq<byte>, before: seq<byte>, after: seq<byte>,
                  beg: nat, p: nat, q: nat, n: nat, dist: nat)
    requires Copied(history, was, before, beg, p, q, dist) && beg <= q < beg + dist && q + n <= |before| == |after| && n <= n0
    requires Segment(window, from, n0, history, dist - (q - beg))
    requires after[..q] == before[..q] && after[q + n..] == before[q + n..]
    requires forall i :: q <= i < q + n ==> after[i] == window[i - q + from]
    ensures Copied(history, was, after, beg, p, q + n, dist)
  {
    SameOutside(was, before, after, p, q, n);
    forall i | p <= i < q + n
      ensures after[i] == Source(history, after, beg, i, dist)
    {
      if i < q {
        SameBefore(before, after, q, i);
        assert before[i] == Source(history, before, beg, i, dist);
      } else {
        assert window[i - q + from] == history[i - q + |history| - (dist - (q - beg))];
      }
    }
  }

  lemma SameBefore(before: seq<byte>, after: seq<byte>, q: nat, i: nat)
    requires i < q <= |before| == |after| && after[..q] == before[..q]
    ensures after[i] == before[i]
  {
    assert after[..q][i] == before[..q][i];
  }

  lemma SameOutside(was: seq<byte>, before: seq<byte>, after: seq<byte>, p: nat, q: nat, n: nat)
    requires p <= q && q + n <= |before| == |after| == |was| && before[..p] == was[..p] && before[q..] == was[q..]
    requires after[..q] == before[..q] && after[q + n..] == before[q + n..]
    ensures after[..p] == was[..p] && after[q + n..] == was[q + n..]
  {
    assert after[..p] == after[..q][..p] && before[..p] == before[..q][..p];
    assert before[q + n..] == before[q..][n..] && was[q + n..] == was[q..][n..];
  }

  /** Two copies over the same distance, one after the other. */
  lemma CopiedJoin(history: seq<byte>, was: seq<byte>, mid: seq<byte>, out: seq<byte>, beg: nat, p: nat, q: nat, r: nat, dist: nat)
    requires Copied(history, was, mid, beg, p, q, dist) && Copied(history, mid, out, beg, q, r, dist)
    ensures Copied(history, was, out, beg, p, r, dist)
  {
    SameOutside(was, mid, out, p, q, r - q);
    forall i | p <= i < r
      ensures out[i] == Source(history, out, beg, i, dist)
    {
      if i < q {
        SameBefore(mid, out, q, i);
        assert mid[i] == Source(history, mid, beg, i, dist);
        if i - beg >= dist {
          SameBefore(mid, out, q, i - dist);
        }
      }
    }
  }

  /** How a copy goes on: first m bytes, then the others. */
  lemma {:induction false} CopyMatchSplit(out: seq<byte>, m: nat, n: nat, dist: nat)
    requires 1 <= dist <= |out|
    ensures CopyMatch(out, m + n, dist) == CopyMatch(CopyMatch(out, m, dist), n, dist)
    decreases m
  {
    if m != 0 {
      CopyMatchSplit(out + [out[|out| - dist]], m - 1, n, dist);
    }
  }

  /** The MATCH state: as much of the match as one source and the space allow. The rest is left for the next
      time, perhaps with a new output buffer. */
  method MatchStep(s: InflateState, out: array<byte>, beg: nat, put: nat, ghost history: seq<byte>) returns (ok: bool, put': nat)
    requires Holds(s.window[..], s.wnext, s.whave, history) && out != s.window
    requires beg <= put < out.Length && s.offset >= 1 && s.length >= 1
    modifies s`length, out
    ensures ok == (s.offset <= s.whave + (put - beg)) && (!ok ==> s.length == old(s.length) && out[..] == old(out[..]))
    ensures ok ==> put < put' <= out.Length && s.length + (put' - put) == old(s.length)
    ensures ok ==> Copied(history, old(out[..]), out[..], beg, put, put', s.offset)
  {
    hide Holds, Copied, Segment;
    ghost var was := out[..];
    var left := out.Length - put;
    var copy := put - beg;
    CopyBegins(history, was, beg, put, s.offset);
    if s.offset > copy {
      copy := s.offset - copy;
      if copy > s.whave {
        return false, put;
      }
      WindowBytes(s.window[..], s.wnext, s.whave, history, copy);
      WindowFits(s.window[..], s.wnext, s.whave, history);
      var from;
      if copy > s.wnext {
        copy := copy - s.wnext;
        from := s.window.Length - copy;
      } else {
        from := s.wnext - copy;
      }
      var n := Least(copy, s.length, left);
      var q, len := CopySegment(s.window, from, copy, out, put, n, was, history, beg, put, s.offset);
      copy := n;
    } else {
      copy := Least(s.length, s.length, left);
      FromOutput(out, s.offset, put, copy);
      CopyOn(history, was, was, out[..], beg, put, put, copy, s.offset);
    }
    s.length := s.length - copy;
    ok, put' := true, put + copy;
  }

  function Least(a: nat, b: nat, c: nat): (r: nat)
    ensures r <= a && r <= b && r <= c && (r == a || r == b || r == c)
  {
    var m := if a < b then a else b;
    if m < c then m else c
  }

  /** A step of the MATCH state does a part of the whole copy. */
  lemma StepKeepsMatch(history: seq<byte>, was: seq<byte>, out: seq<byte>, beg: nat, put: nat, put': nat, dist: nat, rest: nat)
    requires Copied(history, was, out, beg, put, put', dist)
    ensures CopyMatch(Output(history, out, beg, put'), rest, dist) == CopyMatch(Output(history, was, beg, put), (put' - put) + rest, dist)
  {
    hide Copied;
    CopyBound(history, was, out, beg, put, put', dist);
    CopiedIsMatch(history, was, out, beg, put, put', dist);
    CopyMatchSplit(Output(history, was, beg, put), put' - put, rest, dist);
  }

  lemma CopyBound(history: seq<byte>, was: seq<byte>, out: seq<byte>, beg: nat, put: nat, put': nat, dist: nat)
    requires Copied(history, was, out, beg, put, put', dist)
    ensures beg <= put <= put' <= |out| == |was| && 1 <= dist <= |history| + (put - beg)
  {
  }

  /** A whole match through buffers of the given sizes: whenever the output is full, the window takes it over
      and a new buffer is begun. In the end, all output is that of one copy. */
  method ResumableCopy(s: InflateState, sizes: seq<nat>, ghost history0: seq<byte>) returns (ghost all: seq<byte>, rest: nat)
    requires Holds(s.window[..], s.wnext, s.whave, history0) && s.offset >= 1 && s.length >= 1 && s.offset <= s.whave
    requires forall i :: 0 <= i < |sizes| ==> sizes[i] > 0
    modifies s, s.window
    ensures s.offset == old(s.offset) <= |history0| && rest == s.length <= old(s.length)
    ensures all == CopyMatch(history0, old(s.length) - rest, s.offset)
  {
    hide Holds, Copied;
    all := history0;
    WindowFits2(s.window[..], s.wnext, s.whave, history0);
    var dist, total := s.offset, s.length;
    for i := 0 to |sizes|
      invariant Holds(s.window[..], s.wnext, s.whave, all) && s.offset == dist <= s.whave && s.length <= total
      invariant dist <= |history0| && all == CopyMatch(history0, total - s.length, dist)
    {
      if s.length > 0 {
        all := FillBuffer(s, sizes[i], history0, all, total);
      }
    }
    rest := s.length;
  }

  lemma WindowFits2(window: seq<byte>, wnext: nat, whave: nat, history: seq<byte>)
    requires Holds(window, wnext, whave, history)
    ensures whave <= |history|
  {
  }

  /** One buffer's worth: MATCH until it is full or the match is done, then updatewindow. */
  method FillBuffer(s: InflateState, size: nat, ghost history0: seq<byte>, ghost history: seq<byte>, ghost total: nat) returns (ghost all: seq<byte>)
    requires Holds(s.window[..], s.wnext, s.whave, history) && 1 <= s.offset <= s.whave && 1 <= s.length <= total && size > 0
    requires s.offset <= |history0| && history == CopyMatch(history0, total - s.length, s.offset)
    modifies s`length, s`wnext, s`whave, s.window
    ensures Holds(s.window[..], s.wnext, s.whave, all) && s.offset <= s.whave && s.length < old(s.length)
    ensures all == CopyMatch(history0, total - s.length, s.offset)
  {
    hide Holds, CopyMatch, Output;
    var out := new byte[size](_ => 0);
    var put: nat := 0;
    OutputStarts(history, out[..], s.offset);
    ghost var len := s.length;
    ghost var win, wnext, whave := s.window[..], s.wnext, s.whave;
    while put < size && s.length > 0
      invariant put <= size && s.length <= len && s.length + put == len
      invariant s.window[..] == win && s.wnext == wnext && s.whave == whave
      invariant Output(history, out[..], 0, put) == CopyMatch(history, put, s.offset)
      decreases s.length
    {
      put := MatchOn(s, out, put, history);
    }
    WindowFits(s.window[..], s.wnext, s.whave, history);
    s.UpdateWindow(out, put, put, history);
    all := history + out[0..put];
    OutputIs(history, out[..], put);
    CopyMatchSplit(history0, total - len, put, s.offset);
  }

  lemma OutputStarts(history: seq<byte>, out: seq<byte>, dist: nat)
    requires 1 <= dist <= |history|
    ensures Output(history, out, 0, 0) == CopyMatch(history, 0, dist)
  {
    assert out[0..0] == [];
  }

  lemma OutputIs(history: seq<byte>, out: seq<byte>, p: nat)
    requires p <= |out|
    ensures Output(history, out, 0, p) == history + out[0..p]
  {
  }

  method MatchOn(s: InflateState, out: array<byte>, put: nat, ghost history: seq<byte>) returns (put': nat)
    requires Holds(s.window[..], s.wnext, s.whave, history) && out != s.window && put < out.Length && 1 <= s.offset <= s.whave && s.length >= 1
    requires s.offset <= |history| && Output(history, out[..], 0, put) == CopyMatch(history, put, s.offset)
    modifies s`length, out
    ensures put < put' <= out.Length && s.length + (put' - put) == old(s.length)
    ensures Output(history, out[..], 0, put') == CopyMatch(history, put', s.offset)
  {
    hide Holds, Copied, CopyMatch, Output;
    ghost var was := out[..];
    var ok;
    ok, put' := MatchStep(s, out, 0, put, history);
    CopyBound(history, was, out[..], 0, put, put', s.offset);
    CopiedIsMatch(history, was, out[..], 0, put, put', s.offset);
    CopyMatchSplit(history, put, put' - put, s.offset);
  }

  lemma OutputAlone(out: seq<byte>, p: nat)
    requires p <= |out|
    ensures Output([], out, 0, p) == out[..p]
  {
  }
}
