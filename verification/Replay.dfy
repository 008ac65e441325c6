/** The sliding anti-replay window (src/protocol/replay.py). The bitmap is an unbounded
    integer that is shifted but never truncated; the reference it is proved against is
    the plain set of packet ids accepted so far. */
module Replay {
  import opened Bits

  const MAX_WINDOW := 64

  /** The three fields of the window. `highest` is -1 until a packet is accepted. */
  datatype Window = Window(size: nat, highest: int, seen: nat)

  predicate Sized(size: int) {
    1 <= size <= MAX_WINDOW
  }

  function Fresh(size: nat): Window {
    Window(size, -1, 0)
  }

  /** One check: the new window, and whether the packet is accepted. */
  function Checked(w: Window, id: int): (Window, bool) {
    if id < 0 then (w, false)
    else if w.highest == -1 then (w.(highest := id, seen := 1), true)
    else if id > w.highest then
      var delta := id - w.highest;
      var shifted := if delta >= w.size then 0 else Shl(w.seen, delta);
      (w.(highest := id, seen := Or(shifted, 1)), true)
    else
      var delta := w.highest - id;
      if delta >= w.size then (w, false)
      else if And(w.seen, Shl(1, delta)) != 0 then (w, false)
      else (w.(seen := Or(w.seen, Shl(1, delta))), true)
  }

  // ---- The reference: the set of accepted ids ----

  /** id is further than `size` behind some accepted id. */
  ghost predicate TooOld(accepted: set<int>, size: nat, id: int) {
    exists a :: a in accepted && id + size <= a
  }

  /** The answer the window has to give. */
  ghost predicate Acceptable(accepted: set<int>, size: nat, id: int) {
    id >= 0 && id !in accepted && !TooOld(accepted, size, id)
  }

  /** The bitmap w represents the set of accepted ids: exactly, inside the window;
      and nothing below it is needed. */
  ghost predicate Tracks(w: Window, accepted: set<int>) {
    && w.size >= 1
    && w.highest >= -1
    && (forall a :: a in accepted ==> 0 <= a <= w.highest)
    && (w.highest == -1 ==> w.seen == 0)
    && (w.highest != -1 ==> w.highest in accepted)
    && (forall d: nat :: d < w.size && w.highest != -1 ==> (Bit(w.seen, d) <==> w.highest - d in accepted))
  }

  ghost function Accept(accepted: set<int>, id: int, ok: bool): set<int> {
    if ok then accepted + {id} else accepted
  }

  lemma FreshTracks(size: nat)
    requires size >= 1
    ensures Tracks(Fresh(size), {})
  {
  }

  /** The bits after moving the window forward to a higher id. */
  lemma AdvanceBits(w: Window, id: int, d: nat)
    requires w.highest >= 0 && id > w.highest && d < w.size
    ensures var seen := Checked(w, id).0.seen;
      Bit(seen, d) <==> d == 0 || (d >= id - w.highest && Bit(w.seen, d - (id - w.highest)))
  {
    var delta := id - w.highest;
    BitOne(d);
    if delta >= w.size {
      BitOr(0, 1, d);
      BitOfZero(d);
    } else {
      BitOr(Shl(w.seen, delta), 1, d);
      BitShl(w.seen, delta, d);
    }
  }

  /** One check gives the reference answer and keeps the representation. */
  lemma CheckRefines(w: Window, accepted: set<int>, id: int)
    requires Tracks(w, accepted)
    ensures var (w', ok) := Checked(w, id);
      && (ok <==> Acceptable(accepted, w.size, id))
      && w'.size == w.size
      && Tracks(w', Accept(accepted, id, ok))
  {
    var (w', ok) := Checked(w, id);
    var accepted' := Accept(accepted, id, ok);
    if id >= 0 && w.highest == -1 {
      forall d: nat | d < w.size
        ensures Bit(w'.seen, d) <==> w'.highest - d in accepted'
      {
        BitOne(d);
      }
    } else if id > w.highest {
      forall d: nat | d < w.size && id >= 0
        ensures Bit(w'.seen, d) <==> w'.highest - d in accepted'
      {
        AdvanceBits(w, id, d);
      }
    } else if id >= 0 && w.highest - id < w.size {
      var delta := w.highest - id;
      AndShlOne(w.seen, delta);
      forall d: nat | d < w.size && ok
        ensures Bit(w'.seen, d) <==> w'.highest - d in accepted'
      {
        BitOr(w.seen, Shl(1, delta), d);
        BitShl(1, delta, d);
        if d >= delta {
          BitOne(d - delta);
        }
      }
    }
  }

  // ---- Whole runs ----

  /** The window and the answers after checking ids in order. */
  function CheckAll(w: Window, ids: seq<int>): (r: (Window, seq<bool>))
    ensures |r.1| == |ids|
  {
    if ids == [] then (w, [])
    else
      var (w0, answers) := CheckAll(w, ids[..|ids| - 1]);
      var (w1, ok) := Checked(w0, ids[|ids| - 1]);
      (w1, answers + [ok])
  }

  /** The ids that were accepted. */
  ghost function AcceptedIds(ids: seq<int>, answers: seq<bool>): set<int>
    requires |answers| == |ids|
  {
    set k | 0 <= k < |ids| && answers[k] :: ids[k]
  }

  /** After any sequence of checks, the k-th check accepted its id exactly when the id is
      not negative, no earlier check accepted it, and it is not `size` or more behind an id
      accepted earlier. */
  lemma {:induction false} CheckAllRefines(size: nat, ids: seq<int>)
    requires Sized(size)
    ensures var (w, answers) := CheckAll(Fresh(size), ids);
      && w.size == size
      && Tracks(w, AcceptedIds(ids, answers))
      && (forall k :: 0 <= k < |ids| ==>
            (answers[k] <==> Acceptable(AcceptedIds(ids[..k], answers[..k]), size, ids[k])))
  {
    if ids == [] {
      assert AcceptedIds(ids, []) == {};
    } else {
      var n := |ids| - 1;
      var front := ids[..n];
      CheckAllRefines(size, front);
      var (w0, answers0) := CheckAll(Fresh(size), front);
      var (w, answers) := CheckAll(Fresh(size), ids);
      CheckRefines(w0, AcceptedIds(front, answers0), ids[n]);
      assert answers[..n] == answers0;
      assert AcceptedIds(ids, answers) == Accept(AcceptedIds(front, answers0), ids[n], answers[n]);
      forall k | 0 <= k < |ids|
        ensures answers[k] <==> Acceptable(AcceptedIds(ids[..k], answers[..k]), size, ids[k])
      {
        if k < n {
          assert front[..k] == ids[..k] && answers0[..k] == answers[..k];
        }
      }
    }
  }

  /** No id is accepted twice, however the checks are ordered. */
  lemma AcceptedAtMostOnce(size: nat, ids: seq<int>, i: nat, j: nat)
    requires Sized(size) && i < j < |ids| && ids[i] == ids[j]
    ensures var answers := CheckAll(Fresh(size), ids).1; !(answers[i] && answers[j])
  {
    CheckAllRefines(size, ids);
    var answers := CheckAll(Fresh(size), ids).1;
    if answers[i] {
      assert ids[..j][i] == ids[i] && answers[..j][i];
      assert ids[i] in AcceptedIds(ids[..j], answers[..j]);
    }
  }

  // ---- Truncation ----

  /** A window that keeps only `size` bits and has no special first packet. */
  function CheckMasked(w: Window, id: int): (Window, bool) {
    if id > w.highest then
      var delta := id - w.highest;
      var shifted := if delta >= w.size then 0 else Shl(w.seen, delta);
      (w.(highest := id, seen := Low(Or(shifted, 1), w.size)), true)
    else
      var delta := w.highest - id;
      if id < 0 || delta >= w.size || And(w.seen, Shl(1, delta)) != 0 then (w, false)
      else (w.(seen := Low(Or(w.seen, Shl(1, delta)), w.size)), true)
  }

  function CheckAllMasked(w: Window, ids: seq<int>): (r: (Window, seq<bool>))
    ensures |r.1| == |ids|
  {
    if ids == [] then (w, [])
    else
      var (w0, answers) := CheckAllMasked(w, ids[..|ids| - 1]);
      var (w1, ok) := CheckMasked(w0, ids[|ids| - 1]);
      (w1, answers + [ok])
  }

  /** Same size and position, and the same bits inside the window. */
  ghost predicate SameWindow(w: Window, m: Window) {
    && w.size == m.size >= 1
    && w.highest == m.highest >= -1
    && (w.highest == -1 ==> w.seen == 0 && m.seen == 0)
    && (forall d: nat :: d < w.size ==> (Bit(w.seen, d) <==> Bit(m.seen, d)))
    && m.seen < Shl(1, m.size)
  }

  lemma CheckMaskedAgrees(w: Window, m: Window, id: int)
    requires SameWindow(w, m)
    ensures Checked(w, id).1 == CheckMasked(m, id).1
    ensures SameWindow(Checked(w, id).0, CheckMasked(m, id).0)
  {
    var (w', ok) := Checked(w, id);
    var (m', okm) := CheckMasked(m, id);
    if id > w.highest {
      var delta := id - w.highest;
      var shifted := if delta >= m.size then 0 else Shl(m.seen, delta);
      LowBound(Or(shifted, 1), m.size);
      forall d: nat | d < w.size
        ensures Bit(w'.seen, d) <==> Bit(m'.seen, d)
      {
        BitOne(d);
        BitOfZero(d);
        BitLow(Or(shifted, 1), m.size, d);
        BitOr(shifted, 1, d);
        if delta < m.size {
          BitShl(m.seen, delta, d);
        }
        if w.highest >= 0 {
          AdvanceBits(w, id, d);
        } else if d >= delta {
          BitOfZero(d - delta);
        }
      }
    } else if id >= 0 && w.highest - id < w.size {
      var delta := w.highest - id;
      AndShlOne(w.seen, delta);
      AndShlOne(m.seen, delta);
      LowBound(Or(m.seen, Shl(1, delta)), m.size);
      forall d: nat | d < w.size && ok
        ensures Bit(w'.seen, d) <==> Bit(m'.seen, d)
      {
        BitLow(Or(m.seen, Shl(1, delta)), m.size, d);
        BitOr(w.seen, Shl(1, delta), d);
        BitOr(m.seen, Shl(1, delta), d);
      }
    }
  }

  /** On every sequence of calls the never-truncated bitmap answers like one cut down to
      `size` bits; the cut one never needs more than `size` bits. */
  lemma {:induction false} TruncationEquivalence(size: nat, ids: seq<int>)
    requires Sized(size)
    ensures CheckAll(Fresh(size), ids).1 == CheckAllMasked(Fresh(size), ids).1
    ensures SameWindow(CheckAll(Fresh(size), ids).0, CheckAllMasked(Fresh(size), ids).0)
  {
    if ids == [] {
      ShlPositive(size);
    } else {
      var n := |ids| - 1;
      TruncationEquivalence(size, ids[..n]);
      CheckMaskedAgrees(CheckAll(Fresh(size), ids[..n]).0, CheckAllMasked(Fresh(size), ids[..n]).0, ids[n]);
    }
  }

  // ---- The class ----

  /** The window object. `accepted` is the set of ids accepted since the last reset. */
  class ReplayWindow {
    const windowSize: nat
    var highest: int
    var seen: nat
    ghost var accepted: set<int>

    function Value(): Window
      reads this
    {
      Window(windowSize, highest, seen)
    }

    ghost predicate Valid()
      reads this
    {
      Sized(windowSize) && Tracks(Value(), accepted)
    }

    constructor (windowSize: nat)
      requires Sized(windowSize)
      ensures Valid() && accepted == {} && this.windowSize == windowSize
      ensures Value() == Fresh(windowSize)
    {
      this.windowSize := windowSize;
      this.highest := -1;
      this.seen := 0;
      this.accepted := {};
    }

    /** ReplayWindow(window_size); null is the ValueError. */
    static method Make(size: int) returns (w: ReplayWindow?)
      ensures w != null <==> 1 <= size <= 64
      ensures w != null ==> fresh(w) && w.Valid() && w.accepted == {} && w.Value() == Fresh(size)
    {
      if size < 1 || size > MAX_WINDOW {
        return null;
      }
      w := new ReplayWindow(size);
    }

    method Check(id: int) returns (ok: bool)
      requires Valid()
      modifies this
      ensures Valid()
      ensures ok <==> Acceptable(old(accepted), windowSize, id)
      ensures accepted == Accept(old(accepted), id, ok)
      ensures (Value(), ok) == Checked(old(Value()), id)
    {
      CheckRefines(Value(), accepted, id);
      if id < 0 {
        return false;
      }
      if highest == -1 {
        highest := id;
        seen := 1;
        accepted := accepted + {id};
        return true;
      }
      if id > highest {
        var delta := id - highest;
        if delta >= windowSize {
          seen := 0;
        } else {
          seen := Shl(seen, delta);
        }
        seen := Or(seen, 1);
        highest := id;
        accepted := accepted + {id};
        return true;
      }
      var delta := highest - id;
      if delta >= windowSize {
        return false;
      }
      if And(seen, Shl(1, delta)) != 0 {
        return false;
      }
      seen := Or(seen, Shl(1, delta));
      accepted := accepted + {id};
      return true;
    }

    method Reset()
      requires Valid()
      modifies this
      ensures Valid() && accepted == {} && Value() == Fresh(windowSize)
    {
      highest := -1;
      seen := 0;
      accepted := {};
    }
  }
}
