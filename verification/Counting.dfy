/** Counting the events of one key over stretches of time. */
module Counting {
  import opened Prelude

  datatype Mark = Mark(now: int, key: string)

  /** Events of one key between two instants, both included. */
  function Between(marks: seq<Mark>, key: string, lo: int, hi: int): nat {
    if marks == [] then 0
    else
      var last := marks[|marks| - 1];
      Between(marks[..|marks| - 1], key, lo, hi) + if last.key == key && lo <= last.now <= hi then 1 else 0
  }

  /** Events of one key at or after an instant. */
  function Since(marks: seq<Mark>, key: string, lo: int): nat {
    if marks == [] then 0
    else
      var last := marks[|marks| - 1];
      Since(marks[..|marks| - 1], key, lo) + if last.key == key && lo <= last.now then 1 else 0
  }

  ghost predicate NoneAfter(marks: seq<Mark>, now: int) {
    forall m :: m in marks ==> m.now <= now
  }

  lemma {:induction false} BetweenIsSince(marks: seq<Mark>, key: string, lo: int, hi: int)
    requires NoneAfter(marks, hi)
    ensures Between(marks, key, lo, hi) == Since(marks, key, lo)
  {
    if marks != [] {
      assert marks[|marks| - 1] in marks;
      BetweenIsSince(marks[..|marks| - 1], key, lo, hi);
    }
  }

  lemma {:induction false} SinceLater(marks: seq<Mark>, key: string, lo: int, now: int)
    requires NoneAfter(marks, now)
    ensures lo > now ==> Since(marks, key, lo) == 0
  {
    if marks != [] {
      assert marks[|marks| - 1] in marks;
      SinceLater(marks[..|marks| - 1], key, lo, now);
    }
  }

  lemma Append(marks: seq<Mark>, m: Mark, key: string)
    ensures forall lo, hi :: Between(marks + [m], key, lo, hi)
              == Between(marks, key, lo, hi) + if m.key == key && lo <= m.now <= hi then 1 else 0
    ensures forall lo :: Since(marks + [m], key, lo) == Since(marks, key, lo) + if m.key == key && lo <= m.now
        then 1 else 0
  {
    assert (marks + [m])[..|marks|] == marks;
  }
}
