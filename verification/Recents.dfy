/** The recent-vaults list of clients/apps/desktop/src/storage.ts. */
module Recents {
  import opened Prelude

  datatype Recent = Recent(path: string, name: string, openedAt: int)

  const RECENTS_MAX: nat := 8

  datatype Action = Open(entry: Recent) | Clear

  /** `[entry, ...list.filter(r => r.path !== entry.path)]` */
  function MoveToFront(entry: Recent, list: seq<Recent>): seq<Recent> {
    [entry] + Filter((r: Recent) => r.path != entry.path, list)
  }

  function Take(list: seq<Recent>, n: nat): seq<Recent> {
    if |list| <= n then list else list[..n]
  }

  /** The stored list after one action; rememberRecent cuts it off each time. */
  function Remember(stored: seq<Recent>, a: Action): seq<Recent> {
    match a
    case Open(entry) => Take(MoveToFront(entry, stored), RECENTS_MAX)
    case Clear => []
  }

  function Stored(actions: seq<Action>): seq<Recent> {
    if actions == [] then [] else Remember(Stored(actions[..|actions| - 1]), actions[|actions| - 1])
  }

  /** Every path opened since the last clear, most recent first, never cut off. */
  function History(actions: seq<Action>): seq<Recent> {
    if actions == [] then []
    else
      match actions[|actions| - 1]
      case Open(entry) => MoveToFront(entry, History(actions[..|actions| - 1]))
      case Clear => []
  }

  ghost predicate NoRepeats(list: seq<Recent>) {
    forall i, j :: 0 <= i < j < |list| ==> list[i].path != list[j].path
  }

  lemma {:induction false} FilterKeepsDistinct(p: Recent -> bool, list: seq<Recent>)
    requires NoRepeats(list)
    ensures NoRepeats(Filter(p, list))
  {
    if list != [] {
      FilterKeepsDistinct(p, list[1..]);
      forall r | r in Filter(p, list[1..]) ensures r.path != list[0].path {
        assert r in list[1..];
      }
    }
  }

  lemma {:induction false} HistoryDistinct(actions: seq<Action>)
    ensures NoRepeats(History(actions))
  {
    if actions != [] && actions[|actions| - 1].Open? {
      var before := History(actions[..|actions| - 1]);
      var entry := actions[|actions| - 1].entry;
      HistoryDistinct(actions[..|actions| - 1]);
      var p := (r: Recent) => r.path != entry.path;
      FilterKeepsDistinct(p, before);
      var kept := Filter(p, before);
      assert History(actions) == [entry] + kept;
      forall j | 0 <= j < |kept| ensures kept[j].path != entry.path {
        assert kept[j] in kept;
      }
    }
  }

  /** The open at i was not followed by a clear, nor by another open of its path. */
  predicate Current(actions: seq<Action>, i: nat) {
    i < |actions| && actions[i].Open?
    && forall j :: i < j < |actions| ==> actions[j].Open? && actions[j].entry.path != actions[i].entry.path
  }

  /** Where each entry of a list was opened, latest first. */
  ghost predicate OpenedAt(actions: seq<Action>, list: seq<Recent>, at: seq<nat>) {
    && |at| == |list| && (forall p :: 0 <= p < |at| ==> Current(actions, at[p]) && list[p] == actions[at[p]].entry)
    && (forall p, q :: 0 <= p < q < |at| ==> at[p] > at[q])
    && (forall i: nat :: Current(actions, i) ==> i in at)
  }

  lemma CurrentAfter(actions: seq<Action>, a: Action, i: nat)
    ensures Current(actions + [a], i)
            <==> if i == |actions| then a.Open?
                 else Current(actions, i) && a.Open? && a.entry.path != actions[i].entry.path
  {
    var all := actions + [a];
    assert forall j :: 0 <= j < |actions| ==> all[j] == actions[j];
    assert all[|actions|] == a;
  }

  /** The list without one path, and where its entries were opened. */
  lemma {:induction false} Dropped(actions: seq<Action>, list: seq<Recent>, at: seq<nat>, path: string)
      returns (kept: seq<nat>)
    requires |at| == |list| && forall p, q :: 0 <= p < q < |at| ==> at[p] > at[q]
    requires forall p :: 0 <= p < |at| ==> at[p] < |actions| && actions[at[p]] == Open(list[p])
    ensures var rest := Filter((r: Recent) => r.path != path, list);
            |kept| == |rest| && forall p :: 0 <= p < |kept| ==> kept[p] in at && actions[kept[p]] == Open(rest[p])
    ensures forall p, q :: 0 <= p < q < |kept| ==> kept[p] > kept[q]
    ensures forall i :: i in kept <==> i in at && actions[i].entry.path != path
  {
    if at == [] {
      kept := [];
    } else {
      kept := Dropped(actions, list[1..], at[1..], path);
      if list[0].path != path {
        kept := [at[0]] + kept;
      }
    }
  }

  lemma KeptAfter(before: seq<Action>, list: seq<Recent>, at: seq<nat>, entry: Recent, kept: seq<nat>, p: nat)
    requires OpenedAt(before, list, at) && p < |kept| && kept[p] in at && kept[p] < |before|
    requires before[kept[p]].Open? && before[kept[p]].entry.path != entry.path
    ensures Current(before + [Open(entry)], kept[p]) && (before + [Open(entry)])[kept[p]] == before[kept[p]]
  {
    CurrentAfter(before, Open(entry), kept[p]);
  }

  lemma OpenedNext(before: seq<Action>, list: seq<Recent>, at: seq<nat>, entry: Recent) returns (next: seq<nat>)
    requires OpenedAt(before, list, at)
    ensures OpenedAt(before + [Open(entry)], MoveToFront(entry, list), next)
  {
    var all, a := before + [Open(entry)], Open(entry);
    var kept := Dropped(before, list, at, entry.path);
    next := [|before|] + kept;
    CurrentAfter(before, a, |before|);
    forall p: nat | p < |kept| ensures Current(all, kept[p]) && all[kept[p]] == before[kept[p]] {
      KeptAfter(before, list, at, entry, kept, p);
    }
    forall i: nat | Current(all, i) ensures i in next {
      CurrentAfter(before, a, i);
    }
  }

  /** The history is what was opened since the last clear, each path where it was opened
      last, latest first. */
  lemma {:induction false} HistoryIs(actions: seq<Action>) returns (at: seq<nat>)
    ensures OpenedAt(actions, History(actions), at)
  {
    at := [];
    if actions != [] {
      var before, a := actions[..|actions| - 1], actions[|actions| - 1];
      assert actions == before + [a];
      if a.Open? {
        var earlier := HistoryIs(before);
        at := OpenedNext(before, History(before), earlier, a.entry);
      } else {
        forall i: nat ensures !Current(actions, i) {
          CurrentAfter(before, a, i);
        }
      }
    }
  }

  lemma {:induction false} TakeFilter(p: Recent -> bool, list: seq<Recent>, m: nat, n: nat)
    requires n <= |Filter(p, Take(list, m))| || |list| <= m
    ensures Take(Filter(p, Take(list, m)), n) == Take(Filter(p, list), n)
    decreases |list|
  {
    if m == 0 || |list| <= m {
      assert |list| <= m ==> Take(list, m) == list;
      assert m == 0 < |list| ==> Take(list, m) == [];
    } else {
      var rest := list[1..];
      assert list == [list[0]] + rest && Take(list, m) == [list[0]] + Take(rest, m - 1);
      FilterCons(p, list[0], rest);
      FilterCons(p, list[0], Take(rest, m - 1));
      if !p(list[0]) {
        TakeFilter(p, rest, m - 1, n);
      } else if n > 0 {
        TakeFilter(p, rest, m - 1, n - 1);
        TakeCons(list[0], Filter(p, rest), n);
        TakeCons(list[0], Filter(p, Take(rest, m - 1)), n);
      }
    }
  }

  lemma TakeCons(r: Recent, list: seq<Recent>, n: nat)
    requires n > 0
    ensures Take([r] + list, n) == [r] + Take(list, n - 1)
  {
  }

  /** Dropping one path from the first m entries still leaves the first m - 1. */
  lemma {:induction false} FilterOne(path: string, list: seq<Recent>)
    requires NoRepeats(list)
    ensures |Filter((r: Recent) => r.path != path, list)| >= |list| - 1
  {
    var p := (r: Recent) => r.path != path;
    if list != [] {
      if p(list[0]) {
        FilterOne(path, list[1..]);
      } else {
        forall r | r in list[1..] ensures p(r) {
          var i :| 0 <= i < |list[1..]| && list[1..][i] == r;
          assert list[i + 1] == r;
        }
        FilterAll(p, list[1..]);
      }
    }
  }

  lemma CuttingFirst(entry: Recent, full: seq<Recent>)
    requires NoRepeats(full)
    ensures Take(MoveToFront(entry, Take(full, RECENTS_MAX)), RECENTS_MAX)
        == Take(MoveToFront(entry, full), RECENTS_MAX)
  {
    var p := (r: Recent) => r.path != entry.path;
    var cut := Take(full, RECENTS_MAX);
    FilterOne(entry.path, cut);
    TakeFilter(p, full, RECENTS_MAX, RECENTS_MAX - 1);
    assert Take(MoveToFront(entry, cut), RECENTS_MAX) == [entry] + Take(Filter(p, cut), RECENTS_MAX - 1);
    assert Take(MoveToFront(entry, full), RECENTS_MAX) == [entry] + Take(Filter(p, full), RECENTS_MAX - 1);
  }

  /** Cutting the list off at every step loses nothing that cutting off the whole
      history at the end would keep, and no path is ever listed twice. */
  lemma {:induction false} StoredIsRecentHistory(actions: seq<Action>)
    ensures Stored(actions) == Take(History(actions), RECENTS_MAX)
    ensures NoRepeats(Stored(actions))
  {
    HistoryDistinct(actions);
    if actions != [] {
      var before := actions[..|actions| - 1];
      StoredIsRecentHistory(before);
      HistoryDistinct(before);
      if actions[|actions| - 1].Open? {
        CuttingFirst(actions[|actions| - 1].entry, History(before));
      }
    }
  }
}
