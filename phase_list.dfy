/** The phase list updates of the phases page: the stable sort by `order`
    used on load and on add, delete by id, and edit by id. */
module PhaseList {
  import opened Types
  import opened PhaseForm

  predicate SortedByOrder(s: seq<Phase>) {
    forall i, j :: 0 <= i < j < |s| ==> s[i].order <= s[j].order
  }

  /** The phases of `s` whose order is `k`, in their order in `s`. */
  function WithOrder(s: seq<Phase>, k: int): (r: seq<Phase>)
    ensures |r| <= |s|
  {
    if s == [] then []
    else (if s[0].order == k then [s[0]] else []) + WithOrder(s[1..], k)
  }

  /** A stable arrangement of `s` by order: sorted, and each group of equal
      order keeps its relative order. */
  ghost predicate StablySorted(s: seq<Phase>, r: seq<Phase>) {
    SortedByOrder(r) && forall k :: WithOrder(r, k) == WithOrder(s, k)
  }

  // ---------------------------------------------------------------------
  // The stable sort, as insertion sort

  /** Every element of `s` has order at most `k`. */
  predicate AllAtMost(s: seq<Phase>, k: int) {
    forall i :: 0 <= i < |s| ==> s[i].order <= k
  }

  /** Inserts `x` after every element of order at most `x.order`. */
  function Insert(sorted: seq<Phase>, x: Phase): seq<Phase> {
    if sorted == [] then [x]
    else
      var n := |sorted| - 1;
      if sorted[n].order > x.order then Insert(sorted[..n], x) + [sorted[n]]
      else sorted + [x]
  }

  lemma {:induction false} InsertBounded(sorted: seq<Phase>, x: Phase, k: int)
    requires AllAtMost(sorted, k) && x.order <= k
    ensures AllAtMost(Insert(sorted, x), k)
  {
    if sorted != [] {
      var n := |sorted| - 1;
      if sorted[n].order > x.order {
        InsertBounded(sorted[..n], x, k);
      }
    }
  }

  /** Appending a phase no smaller than every phase of a sorted list keeps
      it sorted. */
  lemma SortedSnoc(s: seq<Phase>, y: Phase)
    requires SortedByOrder(s) && AllAtMost(s, y.order)
    ensures SortedByOrder(s + [y])
  {
    forall i, j | 0 <= i < j < |s + [y]| ensures (s + [y])[i].order <= (s + [y])[j].order {
      assert (s + [y])[i] == s[i];
      if j < |s| {
        assert (s + [y])[j] == s[j];
      }
    }
  }

  /** Insertion into a sorted list keeps it sorted and adds exactly `x`. */
  lemma {:induction false} InsertFacts(sorted: seq<Phase>, x: Phase)
    requires SortedByOrder(sorted)
    ensures SortedByOrder(Insert(sorted, x))
    ensures multiset(Insert(sorted, x)) == multiset(sorted) + multiset{x}
  {
    if sorted != [] {
      var n := |sorted| - 1;
      var last := sorted[n];
      assert sorted == sorted[..n] + [last];
      if last.order > x.order {
        InsertFacts(sorted[..n], x);
        InsertBounded(sorted[..n], x, last.order);
        SortedSnoc(Insert(sorted[..n], x), last);
      } else {
        assert AllAtMost(sorted, x.order) by {
          forall i | 0 <= i < |sorted| ensures sorted[i].order <= x.order {
            assert sorted[i].order <= last.order;
          }
        }
        SortedSnoc(sorted, x);
      }
    }
  }


  /** `array.sort((a, b) => a.order - b.order)`: a stable sort by order. */
  function SortByOrder(s: seq<Phase>): (r: seq<Phase>)
    ensures SortedByOrder(r)
    ensures multiset(r) == multiset(s)
  {
    if s == [] then []
    else
      var init := SortByOrder(s[..|s| - 1]);
      InsertFacts(init, s[|s| - 1]);
      assert s == s[..|s| - 1] + [s[|s| - 1]];
      Insert(init, s[|s| - 1])
  }

  lemma {:induction false} WithOrderAppend(a: seq<Phase>, b: seq<Phase>, k: int)
    ensures WithOrder(a + b, k) == WithOrder(a, k) + WithOrder(b, k)
  {
    if a != [] {
      assert (a + b)[1..] == a[1..] + b;
      WithOrderAppend(a[1..], b, k);
    } else {
      assert a + b == b;
    }
  }

  lemma {:induction false} InsertKeepsGroups(sorted: seq<Phase>, x: Phase, k: int)
    requires SortedByOrder(sorted)
    ensures WithOrder(Insert(sorted, x), k) == WithOrder(sorted + [x], k)
  {
    if sorted != [] {
      var n := |sorted| - 1;
      var last := sorted[n];
      if last.order > x.order {
        var init := sorted[..n];
        InsertKeepsGroups(init, x, k);
        WithOrderAppend(Insert(init, x), [last], k);
        WithOrderAppend(init, [x], k);
        assert sorted + [x] == init + ([last] + [x]);
        WithOrderAppend(init, [last] + [x], k);
        WithOrderAppend([last], [x], k);
        WithOrderAppend([x], [last], k);
        assert WithOrder([last], k) == [] || WithOrder([x], k) == [];
      }
    }
  }

  /** The sort is stable: each group of equal order keeps its relative order. */
  lemma {:induction false} SortByOrderStable(s: seq<Phase>, k: int)
    ensures WithOrder(SortByOrder(s), k) == WithOrder(s, k)
  {
    if s != [] {
      var n := |s| - 1;
      SortByOrderStable(s[..n], k);
      InsertKeepsGroups(SortByOrder(s[..n]), s[n], k);
      WithOrderAppend(SortByOrder(s[..n]), [s[n]], k);
      assert s == s[..n] + [s[n]];
      WithOrderAppend(s[..n], [s[n]], k);
    }
  }

  lemma {:induction false} WithOrderOfSortedHead(t: seq<Phase>)
    requires t != [] && SortedByOrder(t)
    ensures forall k :: k < t[0].order ==> WithOrder(t, k) == []
    ensures WithOrder(t, t[0].order) != [] && WithOrder(t, t[0].order)[0] == t[0]
  {
    forall k | k < t[0].order ensures WithOrder(t, k) == [] {
      NoneWithOrder(t, k);
    }
  }

  lemma {:induction false} NoneWithOrder(t: seq<Phase>, k: int)
    requires forall i :: 0 <= i < |t| ==> t[i].order != k
    ensures WithOrder(t, k) == []
  {
    if t != [] {
      NoneWithOrder(t[1..], k);
    }
  }

  lemma {:induction false} SomeWithOrder(t: seq<Phase>, i: int)
    requires 0 <= i < |t|
    ensures WithOrder(t, t[i].order) != []
  {
    if i > 0 {
      SomeWithOrder(t[1..], i - 1);
    }
  }

  /** Two stable arrangements of the same list coincide: the sort is the
      only result a stable sort by order can give. */
  lemma {:induction false} StableSortUnique(t: seq<Phase>, u: seq<Phase>)
    requires SortedByOrder(t) && SortedByOrder(u)
    requires forall k :: WithOrder(t, k) == WithOrder(u, k)
    ensures t == u
    decreases |t|
  {
    if t == [] {
      if u != [] {
        SomeWithOrder(u, 0);
        assert false;
      }
    } else if u == [] {
      SomeWithOrder(t, 0);
      assert false;
    } else {
      WithOrderOfSortedHead(t);
      WithOrderOfSortedHead(u);
      var a, b := t[0].order, u[0].order;
      if a < b {
        assert false;
      } else if b < a {
        assert false;
      }
      assert a == b;
      assert t[0] == u[0] by {
        assert WithOrder(t, a)[0] == WithOrder(u, a)[0];
      }
      forall k ensures WithOrder(t[1..], k) == WithOrder(u[1..], k) {
        var wt, wu := WithOrder(t, k), WithOrder(u, k);
        assert wt == wu;
        if a == k {
          assert wt == [t[0]] + WithOrder(t[1..], k);
          assert wu == [u[0]] + WithOrder(u[1..], k);
          assert wt[1..] == WithOrder(t[1..], k);
          assert wu[1..] == WithOrder(u[1..], k);
        } else {
          assert wt == WithOrder(t[1..], k);
          assert wu == WithOrder(u[1..], k);
        }
      }
      StableSortUnique(t[1..], u[1..]);
      assert t == [t[0]] + t[1..] && u == [u[0]] + u[1..];
    }
  }

  /** The sort result is sorted, a permutation of its input and stable; and
      every stable arrangement of the input is exactly that result. */
  lemma SortByOrderIsTheStableSort(s: seq<Phase>, r: seq<Phase>)
    ensures StablySorted(s, SortByOrder(s)) && multiset(SortByOrder(s)) == multiset(s)
    ensures StablySorted(s, r) ==> r == SortByOrder(s)
  {
    forall k ensures WithOrder(SortByOrder(s), k) == WithOrder(s, k) {
      SortByOrderStable(s, k);
    }
    if StablySorted(s, r) {
      StableSortUnique(r, SortByOrder(s));
    }
  }

  /** A list already in order is left as it is. */
  lemma SortedIsFixed(s: seq<Phase>)
    requires SortedByOrder(s)
    ensures SortByOrder(s) == s
  {
    SortByOrderIsTheStableSort(s, s);
  }

  // ---------------------------------------------------------------------
  // Add

  /** Adding a phase: append it and sort again. */
  function AddPhase(phases: seq<Phase>, newPhase: Phase): seq<Phase> {
    SortByOrder(phases + [newPhase])
  }

  /** The added list is a sorted, stable arrangement of the old list plus the
      new phase; when the list was in order and no phase has a larger order
      than the new one, the new phase simply lands at the end. */
  lemma AddPhaseFacts(phases: seq<Phase>, newPhase: Phase)
    ensures StablySorted(phases + [newPhase], AddPhase(phases, newPhase))
    ensures multiset(AddPhase(phases, newPhase)) == multiset(phases) + multiset{newPhase}
    ensures |AddPhase(phases, newPhase)| == |phases| + 1
    ensures SortedByOrder(phases) && (forall i :: 0 <= i < |phases| ==> phases[i].order <= newPhase.order)
            ==> AddPhase(phases, newPhase) == phases + [newPhase]
  {
    SortByOrderIsTheStableSort(phases + [newPhase], phases + [newPhase]);
    assert |multiset(AddPhase(phases, newPhase))| == |multiset(phases + [newPhase])|;
    if SortedByOrder(phases) && (forall i :: 0 <= i < |phases| ==> phases[i].order <= newPhase.order) {
      SortedIsFixed(phases + [newPhase]);
    }
  }

  // ---------------------------------------------------------------------
  // Delete

  /** `phases.filter(p => p.id !== phaseId)`. */
  function DeletePhase(phases: seq<Phase>, phaseId: string): (r: seq<Phase>)
    ensures |r| <= |phases|
  {
    if phases == [] then []
    else (if phases[0].id != phaseId then [phases[0]] else []) + DeletePhase(phases[1..], phaseId)
  }

  lemma {:induction false} DeletePhaseAppend(a: seq<Phase>, b: seq<Phase>, phaseId: string)
    ensures DeletePhase(a + b, phaseId) == DeletePhase(a, phaseId) + DeletePhase(b, phaseId)
  {
    if a != [] {
      assert (a + b)[1..] == a[1..] + b;
      DeletePhaseAppend(a[1..], b, phaseId);
    } else {
      assert a + b == b;
    }
  }

  /** Delete removes exactly the phases with the given id and keeps every
      other phase as often as it occurred. */
  lemma {:induction false} DeletePhaseCounts(phases: seq<Phase>, phaseId: string)
    ensures forall p: Phase :: multiset(DeletePhase(phases, phaseId))[p] ==
              if p.id == phaseId then 0 else multiset(phases)[p]
  {
    if phases != [] {
      DeletePhaseCounts(phases[1..], phaseId);
      assert phases == [phases[0]] + phases[1..];
    }
  }

  /** No phase with the deleted id is left. */
  lemma {:induction false} DeletePhaseRemovesId(phases: seq<Phase>, phaseId: string)
    ensures forall i :: 0 <= i < |DeletePhase(phases, phaseId)| ==> DeletePhase(phases, phaseId)[i].id != phaseId
  {
    if phases != [] {
      DeletePhaseRemovesId(phases[1..], phaseId);
    }
  }

  /** A list without the id is left unchanged. */
  lemma {:induction false} DeletePhaseAbsent(phases: seq<Phase>, phaseId: string)
    requires forall i :: 0 <= i < |phases| ==> phases[i].id != phaseId
    ensures DeletePhase(phases, phaseId) == phases
  {
    if phases != [] {
      DeletePhaseAbsent(phases[1..], phaseId);
      assert phases == [phases[0]] + phases[1..];
    }
  }

  /** Every phase of `s` has order at least `k`. */
  predicate AllAtLeast(s: seq<Phase>, k: int) {
    forall i :: 0 <= i < |s| ==> k <= s[i].order
  }

  lemma {:induction false} DeletePhaseBounded(phases: seq<Phase>, phaseId: string, k: int)
    requires AllAtLeast(phases, k)
    ensures AllAtLeast(DeletePhase(phases, phaseId), k)
  {
    if phases != [] {
      DeletePhaseBounded(phases[1..], phaseId, k);
    }
  }

  /** A list in order stays in order. */
  lemma {:induction false} DeletePhaseSorted(phases: seq<Phase>, phaseId: string)
    requires SortedByOrder(phases)
    ensures SortedByOrder(DeletePhase(phases, phaseId))
  {
    if phases != [] {
      var rest := DeletePhase(phases[1..], phaseId);
      assert SortedByOrder(phases[1..]);
      DeletePhaseSorted(phases[1..], phaseId);
      assert AllAtLeast(phases[1..], phases[0].order);
      DeletePhaseBounded(phases[1..], phaseId, phases[0].order);
      if phases[0].id != phaseId {
        var r := [phases[0]] + rest;
        forall i, j | 0 <= i < j < |r| ensures r[i].order <= r[j].order {
          assert r[j] == rest[j - 1];
          if i > 0 {
            assert r[i] == rest[i - 1];
          }
        }
      }
    }
  }

  // ---------------------------------------------------------------------
  // Edit

  /** `{ ...p, ...data }`: the form data's name, and its description when the
      data has one; id, order and tasks are the phase's own. */
  function Merge(p: Phase, data: PhaseFormData): Phase {
    p.(name := data.name, description := if data.description.Some? then data.description else p.description)
  }

  /** `phases.map(p => p.id === id ? { ...p, ...data } : p)`. */
  function EditPhases(phases: seq<Phase>, id: string, data: PhaseFormData): seq<Phase> {
    seq(|phases|, i requires 0 <= i < |phases| => if phases[i].id == id then Merge(phases[i], data) else phases[i])
  }

  /** Edit changes only the phases with the given id, and on those only the
      name and description; length, ids, orders and tasks are kept, a list in
      order stays in order, and editing twice with the same data is the same
      as editing once. */
  lemma EditPhasesFacts(phases: seq<Phase>, id: string, data: PhaseFormData)
    ensures |EditPhases(phases, id, data)| == |phases|
    ensures forall i :: 0 <= i < |phases| ==>
              var e := EditPhases(phases, id, data)[i];
              e.id == phases[i].id && e.order == phases[i].order && e.tasks == phases[i].tasks
    ensures forall i :: 0 <= i < |phases| && phases[i].id == id ==>
              EditPhases(phases, id, data)[i].name == data.name &&
              EditPhases(phases, id, data)[i].description ==
                (if data.description.Some? then data.description else phases[i].description)
    ensures forall i :: 0 <= i < |phases| && phases[i].id != id ==> EditPhases(phases, id, data)[i] == phases[i]
    ensures SortedByOrder(phases) ==> SortedByOrder(EditPhases(phases, id, data))
    ensures EditPhases(EditPhases(phases, id, data), id, data) == EditPhases(phases, id, data)
  {
  }

  /** The order the add dialog is offered: one past the list's length. */
  function NextOrder(phases: seq<Phase>): int {
    |phases| + 1
  }

  /** The offered order can repeat an order still in use: delete the first
      phase of a list numbered 1..n and the order offered next is n, the
      order of the phase now last. */
  lemma NextOrderCanRepeat(phases: seq<Phase>)
    requires |phases| >= 2
    requires forall i :: 0 <= i < |phases| ==> phases[i].order == i + 1
    requires forall i :: 0 < i < |phases| ==> phases[i].id != phases[0].id
    ensures var after := DeletePhase(phases, phases[0].id);
            && |after| == |phases| - 1
            && after[|after| - 1].order == NextOrder(after)
  {
    var id := phases[0].id;
    DeletePhaseAbsent(phases[1..], id);
    assert DeletePhase(phases, id) == phases[1..];
  }
}
