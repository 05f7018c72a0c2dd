/** The reorder procedures run one row update per list entry, in list order,
    inside a single transaction. `ApplyAll` is what such a batch leaves in a
    table: the table after every update, or nothing at all when one of the
    updates names a row that does not exist (the transaction rolls back). */
module Batch {
  import opened Common

  /** The batch applied to `table`, entry after entry; `None` when some entry's
      row is missing. Folded from the end, so that the prefix `moves[..i]` is
      what a loop has applied after `i` steps. */
  function ApplyAll<T, M>(table: map<Id, T>, moves: seq<M>, key: M -> Id, upd: (T, M) -> T): Option<map<Id, T>>
    decreases |moves|
  {
    if moves == [] then Some(table)
    else
      var last := moves[|moves| - 1];
      match ApplyAll(table, moves[..|moves| - 1], key, upd)
      case None => None
      case Some(t) => if key(last) in t then Some(t[key(last) := upd(t[key(last)], last)]) else None
  }

  /** The index of the last entry for row `k`, or -1 when no entry names it. */
  function LastEntry<M>(moves: seq<M>, key: M -> Id, k: Id): (j: int)
    ensures -1 <= j < |moves|
    ensures j >= 0 ==> key(moves[j]) == k
    ensures forall i | j < i < |moves| :: key(moves[i]) != k
    decreases |moves|
  {
    if moves == [] then -1
    else if key(moves[|moves| - 1]) == k then |moves| - 1
    else LastEntry(moves[..|moves| - 1], key, k)
  }

  /** When no two entries name the same row, entry `i` is the last one for its row. */
  lemma LastEntryOfDistinct<M>(moves: seq<M>, key: M -> Id, i: int)
    requires 0 <= i < |moves|
    requires forall a, b | 0 <= a < b < |moves| :: key(moves[a]) != key(moves[b])
    ensures LastEntry(moves, key, key(moves[i])) == i
  {
  }

  /** A row update that overwrites: a second update forgets the first. */
  ghost predicate Overwriting<T(!new), M(!new)>(upd: (T, M) -> T)
  {
    forall t, m1, m2 :: upd(upd(t, m1), m2) == upd(t, m2)
  }

  /** A batch never adds or removes rows. */
  lemma {:induction false} ApplyAllKeys<T, M>(table: map<Id, T>, moves: seq<M>, key: M -> Id, upd: (T, M) -> T)
    requires ApplyAll(table, moves, key, upd).Some?
    ensures ApplyAll(table, moves, key, upd).value.Keys == table.Keys
    decreases |moves|
  {
    if moves != [] {
      ApplyAllKeys(table, moves[..|moves| - 1], key, upd);
    }
  }

  /** A batch succeeds exactly when every entry names an existing row. */
  lemma {:induction false} ApplyAllSucceedsIff<T, M>(table: map<Id, T>, moves: seq<M>, key: M -> Id, upd: (T, M) -> T)
    ensures ApplyAll(table, moves, key, upd).Some? <==> forall i | 0 <= i < |moves| :: key(moves[i]) in table
    decreases |moves|
  {
    if moves != [] {
      var init := moves[..|moves| - 1];
      ApplyAllSucceedsIff(table, init, key, upd);
      assert forall i | 0 <= i < |init| :: init[i] == moves[i];
      if ApplyAll(table, init, key, upd).Some? {
        ApplyAllKeys(table, init, key, upd);
      }
    }
  }

  /** A batch that fails on a prefix fails as a whole. */
  lemma {:induction false} PrefixFailureAborts<T, M>(table: map<Id, T>, moves: seq<M>, i: nat, key: M -> Id, upd: (T, M) -> T)
    requires i <= |moves|
    requires ApplyAll(table, moves[..i], key, upd).None?
    ensures ApplyAll(table, moves, key, upd).None?
  {
    ApplyAllSucceedsIff(table, moves[..i], key, upd);
    var j :| 0 <= j < i && key(moves[..i][j]) !in table;
    assert moves[j] == moves[..i][j];
    ApplyAllSucceedsIff(table, moves, key, upd);
  }

  /** After a successful batch of overwriting updates, every row holds its last
      entry's update applied to the row as it was, and a row no entry names is
      unchanged. */
  lemma {:induction false} ApplyAllAt<T(!new), M(!new)>(table: map<Id, T>, moves: seq<M>, key: M -> Id, upd: (T, M) -> T, k: Id)
    requires Overwriting(upd)
    requires ApplyAll(table, moves, key, upd).Some? && k in table
    ensures k in ApplyAll(table, moves, key, upd).value
    ensures var j := LastEntry(moves, key, k);
      ApplyAll(table, moves, key, upd).value[k] == if j < 0 then table[k] else upd(table[k], moves[j])
    decreases |moves|
  {
    ApplyAllKeys(table, moves, key, upd);
    if moves != [] {
      var init := moves[..|moves| - 1];
      var last := moves[|moves| - 1];
      ApplyAllAt(table, init, key, upd, k);
      var t := ApplyAll(table, init, key, upd).value;
      if key(last) == k {
        var j0 := LastEntry(init, key, k);
        if j0 >= 0 {
          assert init[j0] == moves[j0];
          assert upd(upd(table[k], moves[j0]), last) == upd(table[k], last);
        }
      }
    }
  }
}
