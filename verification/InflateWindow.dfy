/** inflate.c: the circular window, and matches copied from it and from the output. */
module InflateWindow {
  import opened Lz77

  /** The window holds the last whave bytes of history; wnext is where the next byte goes. */
  ghost predicate Holds(window: seq<byte>, wnext: nat, whave: nat, history: seq<byte>) {
    && whave <= |window| && whave <= |history| && wnext < |window|
    && (whave < |window| ==> wnext == whave && |history| == whave)
    && forall d :: 1 <= d <= whave ==> window[At(wnext, d, |window|)] == history[|history| - d]
  }

  /** The n bytes from number i on are put into the window at to. */
  ghost function Replaced(win: seq<byte>, to: nat, bytes: seq<byte>, i: nat, n: nat): (r: seq<byte>)
    requires to + n <= |win| && i + n <= |bytes|
    ensures |r| == |win|
  {
    win[..to] + bytes[i..i + n] + win[to + n..]
  }

  /** Where the byte d back is. */
  function At(wnext: nat, d: nat, wsize: nat): (r: nat)
    requires wnext < wsize && 1 <= d <= wsize
    ensures r < wsize
  {
    if d <= wnext then wnext - d else wsize + wnext - d
  }

  class InflateState {
    const window: array<byte>
    var wnext: nat
    var whave: nat
    var length: nat
    var offset: nat

    constructor (wsize: nat)
      requires wsize > 0
      ensures Holds(window[..], wnext, whave, []) && fresh(window) && window.Length == wsize
    {
      window := new byte[wsize](_ => 0);
      wnext, whave, length, offset := 0, 0, 0, 0;
    }

    /** updatewindow: the last copy bytes of the output up to end enter the window. */
    method UpdateWindow(out: array<byte>, end: nat, copy0: nat, ghost history: seq<byte>)
      requires Holds(window[..], wnext, whave, history) && out != window && copy0 <= end <= out.Length
      modifies this`wnext, this`whave, window
      ensures Holds(window[..], wnext, whave, history + out[end - copy0..end])
      ensures whave == if old(whave) + copy0 < window.Length then old(whave) + copy0 else window.Length
    {
      WindowFits(window[..], wnext, whave, history);
      hide Holds, Replaced;
      ghost var win, bytes := window[..], out[end - copy0..end];
      assert |bytes| == copy0;
      var copy := copy0;
      var wsize := window.Length;
      if copy >= wsize {
        CopyIn(out, end - wsize, 0, wsize, bytes, end);
        wnext := 0;
        whave := wsize;
        EnteredAll(win, window[..], old(wnext), old(whave), history, bytes);
      } else {
        var dist := wsize - wnext;
        if dist > copy {
          dist := copy;
        }
        CopyIn(out, end - copy, wnext, dist, bytes, end);
        copy := copy - dist;
        if copy != 0 {
          CopyIn(out, end - copy, 0, copy, bytes, end);
          EnteredAround(win, window[..], wnext, whave, history, bytes, copy);
          wnext := copy;
          whave := wsize;
        } else {
          EnteredRun(win, window[..], wnext, whave, history, bytes);
          wnext := wnext + dist;
          if wnext == wsize {
            wnext := 0;
          }
          if whave < wsize {
            whave := whave + dist;
          }
        }
      }
    }

    /** zmemcpy into the window. */
    method CopyIn(out: array<byte>, from: nat, to: nat, n: nat, ghost bytes: seq<byte>, ghost end: nat)
      requires out != window && |bytes| <= end <= out.Length && to + n <= window.Length && bytes == out[end - |bytes|..end]
      requires end - |bytes| <= from && from + n <= end
      modifies window
      ensures window[..] == Replaced(old(window[..]), to, bytes, from - (end - |bytes|), n)
    {
      ghost var at := from - (end - |bytes|);
      for i := 0 to n
        invariant forall k :: 0 <= k < window.Length ==> window[k] == if to <= k < to + i then bytes[at + k - to] else old(window[k])
      {
        window[to + i] := out[from + i];
      }
    }
  }

  lemma WindowFits(window: seq<byte>, wnext: nat, whave: nat, history: seq<byte>)
    requires Holds(window, wnext, whave, history)
    ensures wnext < |window| && whave <= |window| && (whave < |window| ==> wnext == whave)
  {
  }

  /** The new bytes follow the old ones around the circle. */
  lemma Entered(win: seq<byte>, win': seq<byte>, wnext: nat, whave: nat, wnext': nat, whave': nat, history: seq<byte>, bytes: seq<byte>)
    requires Holds(win, wnext, whave, history) && |win'| == |win|
    requires wnext' == if |bytes| >= |win| then 0 else Next(wnext, |bytes|, |win|)
    requires whave' == if whave + |bytes| < |win| then whave + |bytes| else |win|
    requires forall d :: 1 <= d <= |bytes| && d <= |win| ==> win'[At(wnext', d, |win|)] == bytes[|bytes| - d]
    requires |bytes| < |win| ==>
      forall d :: 1 <= d && d + |bytes| <= |win| ==> win'[At(wnext, d, |win|)] == win[At(wnext, d, |win|)]
    ensures Holds(win', wnext', whave', history + bytes)
  {
    var all := history + bytes;
    forall d | 1 <= d <= whave'
      ensures win'[At(wnext', d, |win|)] == all[|all| - d]
    {
      if d > |bytes| {
        assert At(wnext', d, |win|) == At(wnext, d - |bytes|, |win|);
      }
    }
  }

  lemma EnteredAll(win: seq<byte>, win': seq<byte>, wnext: nat, whave: nat, history: seq<byte>, bytes: seq<byte>)
    requires Holds(win, wnext, whave, history) && |bytes| >= |win| && win' == Replaced(win, 0, bytes, |bytes| - |win|, |win|)
    ensures Holds(win', 0, |win|, history + bytes)
  {
    hide Holds;
    WindowFits(win, wnext, whave, history);
    Entered(win, win', wnext, whave, 0, |win|, history, bytes);
  }

  lemma EnteredRun(win: seq<byte>, win': seq<byte>, wnext: nat, whave: nat, history: seq<byte>, bytes: seq<byte>)
    requires Holds(win, wnext, whave, history) && |bytes| < |win| && wnext + |bytes| <= |win|
    requires win' == Replaced(win, wnext, bytes, 0, |bytes|)
    ensures Holds(win', if wnext + |bytes| == |win| then 0 else wnext + |bytes|, if whave < |win| then whave + |bytes| else whave, history + bytes)
  {
    hide Holds;
    WindowFits(win, wnext, whave, history);
    var wnext' := Next(wnext, |bytes|, |win|);
    var whave' := if whave + |bytes| < |win| then whave + |bytes| else |win|;
    Entered(win, win', wnext, whave, wnext', whave', history, bytes);
  }

  lemma EnteredAround(win: seq<byte>, win': seq<byte>, wnext: nat, whave: nat, history: seq<byte>, bytes: seq<byte>, rest: nat)
    requires Holds(win, wnext, whave, history) && |bytes| < |win| && 0 < rest && wnext + |bytes| == |win| + rest
    requires rest < |bytes| && win' == Replaced(Replaced(win, wnext, bytes, 0, |bytes| - rest), 0, bytes, |bytes| - rest, rest)
    ensures Holds(win', rest, |win|, history + bytes)
  {
    hide Holds;
    WindowFits(win, wnext, whave, history);
    Entered(win, win', wnext, whave, rest, |win|, history, bytes);
  }

  function Next(wnext: nat, n: nat, wsize: nat): nat
    requires wnext < wsize && n < wsize
  {
    if wnext + n < wsize then wnext + n else wnext + n - wsize
  }
}
