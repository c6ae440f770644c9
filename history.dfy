/** The editor's undo history (pushHistory, undo): a list of serialized
    snapshots and the index of the current one.  A snapshot is kept as the
    JSON text it was stored as; what it holds is not modelled here. */
module History {
  import opened Text

  /** The two pieces of state the history functions update: the stored
      snapshots and the index of the current one (-1 before the first). */
  datatype HistoryState = HistoryState(entries: seq<string>, index: int)

  /** Every state the editor can reach keeps the index at -1 or on an entry. */
  predicate ValidState(h: HistoryState)
  {
    -1 <= h.index < |h.entries|
  }

  /** The state the editor starts in: no snapshots and index -1. */
  const Initial := HistoryState([], -1)

  /** pushHistory: everything after the current entry (the redo tail) is
      dropped and the new snapshot becomes the current, last entry. */
  function Pushed(h: HistoryState, snapshot: string): (r: HistoryState)
    requires ValidState(h)
    ensures ValidState(r)
    ensures |r.entries| == h.index + 2 && r.index == |r.entries| - 1
    ensures r.entries[r.index] == snapshot
    ensures forall i :: 0 <= i <= h.index ==> r.entries[i] == h.entries[i]
  {
    var kept := h.entries[..h.index + 1];
    HistoryState(kept + [snapshot], |kept|)
  }

  /** undo: at index 0 or below nothing happens and nothing is restored;
      otherwise the index steps back one entry and that entry is restored. */
  function Undone(h: HistoryState): (r: (HistoryState, Option<string>))
    requires ValidState(h)
    ensures ValidState(r.0) && r.0.entries == h.entries
    ensures h.index <= 0 ==> r.0 == h && r.1 == None
    ensures h.index > 0 ==> r.0.index == h.index - 1 && r.1 == Some(h.entries[h.index - 1])
  {
    if h.index <= 0 then (h, None)
    else (HistoryState(h.entries, h.index - 1), Some(h.entries[h.index - 1]))
  }

  /** Pushing and then undoing restores the snapshot that was current
      before the push, and the state is the old one cut at that entry. */
  lemma UndoAfterPush(h: HistoryState, snapshot: string)
    requires ValidState(h) && h.index >= 0
    ensures Undone(Pushed(h, snapshot)).1 == Some(h.entries[h.index])
    ensures Undone(Pushed(h, snapshot)).0.index == h.index
    ensures Undone(Pushed(h, snapshot)).0.entries[..h.index + 1] == h.entries[..h.index + 1]
  {
  }

  /** The first snapshot is never undone: with one entry or none, undo is
      a no-op. */
  lemma FirstPushCannotBeUndone(snapshot: string)
    ensures Pushed(Initial, snapshot) == HistoryState([snapshot], 0)
    ensures Undone(Pushed(Initial, snapshot)) == (Pushed(Initial, snapshot), None)
  {
  }

  /** n undos in a row; the result holds what the last one restored. */
  function UndoTimes(h: HistoryState, n: nat): (r: (HistoryState, Option<string>))
    requires ValidState(h)
    ensures ValidState(r.0) && r.0.entries == h.entries
    decreases n
  {
    if n == 0 then (h, None)
    else
      var s := Undone(h);
      if n == 1 then s else UndoTimes(s.0, n - 1)
  }

  /** Undoing n times from index i restores entry i - n, as long as that
      is not below 0, and the entries never change. */
  lemma {:induction false} UndoTimesRestores(h: HistoryState, n: nat)
    requires ValidState(h) && 1 <= n <= h.index
    ensures UndoTimes(h, n).0 == HistoryState(h.entries, h.index - n)
    ensures UndoTimes(h, n).1 == Some(h.entries[h.index - n])
    decreases n
  {
    if n > 1 {
      UndoTimesRestores(HistoryState(h.entries, h.index - 1), n - 1);
    }
  }

  /** The history as the editor keeps it: the entries and the index are
      fields that pushHistory and undo reassign. */
  class Log {
    var entries: seq<string>
    var index: int

    function State(): HistoryState
      reads this
    {
      HistoryState(entries, index)
    }

    predicate Valid()
      reads this
    {
      ValidState(State())
    }

    constructor ()
      ensures Valid() && State() == Initial
    {
      entries := [];
      index := -1;
    }

    method PushHistory(snapshot: string)
      requires Valid()
      modifies this
      ensures Valid() && State() == Pushed(old(State()), snapshot)
    {
      entries := entries[..index + 1];
      entries := entries + [snapshot];
      index := |entries| - 1;
    }

    /** Returns the snapshot to restore, if any. */
    method Undo() returns (restored: Option<string>)
      requires Valid()
      modifies this
      ensures Valid() && (State(), restored) == Undone(old(State()))
    {
      if index <= 0 {
        return None;
      }
      index := index - 1;
      restored := Some(entries[index]);
    }
  }
}
