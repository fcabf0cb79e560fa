/** The runner over any sorted list of migrations: what it promises as soon as each migration absorbs
    its own partial effects. */
module MigrationList {
  import opened Optional

  /** A migration, as the ends it may have when it completes (None when it raises), of which there may be several
      when it issues writes concurrently, and the states it may leave behind when it does not. */
  datatype Script<!S> = Script(ends: (S, Option<S>) -> bool, dies: (S, S) -> bool)

  /** The data the migrations work on, and the positions recorded as applied. */
  datatype Runner<S> = Runner(data: S, recorded: set<nat>) {
    function Record(data': S, k: nat): Runner<S> {
      Runner(data', recorded + {k})
    }
  }

  /** An end the runner may have from position `k` of the list on, uninterrupted. */
  ghost predicate Completes<S(!new)>(list: seq<Script<S>>, st: Runner<S>, k: nat, end: Option<Runner<S>>)
    requires k <= |list|
    decreases |list| - k
  {
    if k == |list| then end == Some(st)
    else if k in st.recorded then Completes(list, st, k + 1, end)
    else
      || (end.None? && list[k].ends(st.data, None))
      || exists s :: list[k].ends(st.data, Some(s)) && Completes(list, st.Record(s, k), k + 1, end)
  }

  /** The same, dying at any point: before, inside or after a migration, or after recording it. */
  ghost predicate Dies<S(!new)>(list: seq<Script<S>>, st: Runner<S>, k: nat, st': Runner<S>)
    requires k <= |list|
    decreases |list| - k
  {
    || st' == st
    || (k < |list| && k in st.recorded && Dies(list, st, k + 1, st'))
    || (k < |list| && k !in st.recorded &&
        (|| (st'.recorded == st.recorded && list[k].dies(st.data, st'.data))
         || (st'.recorded == st.recorded && list[k].ends(st.data, Some(st'.data)))
         || exists s :: list[k].ends(st.data, Some(s)) && Dies(list, st.Record(s, k), k + 1, st')))
  }

  /** `stage(k)` holds of the data from when the first `k` migrations are applied until the next one is:
      dying keeps it, completing leads to the next stage, and applying a migration over what it left
      behind, partly or wholly, may end exactly as applying it once may. */
  ghost predicate Absorbing<S(!new)>(list: seq<Script<S>>, stage: (nat, S) -> bool) {
    forall k: nat, s :: k < |list| && stage(k, s) ==> AbsorbsAt(list[k], stage, k, s)
  }

  ghost predicate AbsorbsAt<S(!new)>(script: Script<S>, stage: (nat, S) -> bool, k: nat, s: S) {
    && (forall s' :: script.dies(s, s') ==> stage(k, s') && SameEnds(script, s', s))
    && (forall s' :: script.ends(s, Some(s')) ==> stage(k, s') && stage(k + 1, s') && SameEnds(script, s', s))
    && exists end :: script.ends(s, end)
  }

  ghost predicate SameEnds<S(!new)>(script: Script<S>, a: S, b: S) {
    forall end :: script.ends(a, end) <==> script.ends(b, end)
  }

  /** The migration has one end only, wherever it starts at its stage. */
  ghost predicate OneEndAt<S(!new)>(script: Script<S>, stage: (nat, S) -> bool, k: nat) {
    forall s, a, b :: stage(k, s) && script.ends(s, a) && script.ends(s, b) ==> a == b
  }

  /** Exactly the first `k` migrations are recorded, and the data is at that stage. */
  ghost predicate At<S>(list: seq<Script<S>>, stage: (nat, S) -> bool, st: Runner<S>, k: nat) {
    k <= |list| && (forall i: nat :: i in st.recorded <==> i < k) && stage(k, st.data)
  }

  /** Recorded positions are passed over. */
  lemma {:induction false} SkipsRecorded<S(!new)>(list: seq<Script<S>>, st: Runner<S>, j: nat, k: nat)
    requires j <= k <= |list| && forall i: nat :: i in st.recorded <==> i < k
    ensures forall end :: Completes(list, st, j, end) <==> Completes(list, st, k, end)
    ensures forall st' :: Dies(list, st, j, st') ==> Dies(list, st, k, st')
    decreases k - j
  {
    if j < k {
      SkipsRecorded(list, st, j + 1, k);
    }
  }

  lemma RecordedNext<S>(list: seq<Script<S>>, stage: (nat, S) -> bool, st: Runner<S>, k: nat, s: S)
    requires At(list, stage, st, k) && k < |list| && stage(k + 1, s)
    ensures At(list, stage, st.Record(s, k), k + 1)
  {
  }

  lemma AbsorbsHere<S(!new)>(list: seq<Script<S>>, stage: (nat, S) -> bool, k: nat, s: S)
    requires Absorbing(list, stage) && k < |list| && stage(k, s)
    ensures AbsorbsAt(list[k], stage, k, s)
  {
  }

  /** The ends possible from `st'` on are ends possible from `st` on, and all of them unless a recorded migration
      has settled which. */
  ghost predicate Converges<S(!new)>(list: seq<Script<S>>, stage: (nat, S) -> bool, st: Runner<S>, k: nat,
                                     st': Runner<S>, k': nat)
    requires k <= k' <= |list|
  {
    && (forall end :: Completes(list, st', k', end) ==> Completes(list, st, k, end))
    && ((forall i: nat :: k <= i < k' ==> OneEndAt(list[i], stage, i)) ==>
          forall end :: Completes(list, st, k, end) ==> Completes(list, st', k', end))
  }

  /** Data from which the pending migration may end in the same ways has the same ends. */
  lemma SameEndsConverge<S(!new)>(list: seq<Script<S>>, stage: (nat, S) -> bool, st: Runner<S>, k: nat, s: S)
    requires k < |list| && k !in st.recorded && SameEnds(list[k], s, st.data)
    ensures Converges(list, stage, st, k, Runner(s, st.recorded), k)
  {
    var st' := Runner(s, st.recorded);
    forall end
      ensures Completes(list, st', k, end) <==> Completes(list, st, k, end)
    {
      assert forall s' :: st'.Record(s', k) == st.Record(s', k);
    }
  }

  /** So has the state after one possible end of the pending migration, when it was the only one. */
  lemma OneStepConverges<S(!new)>(list: seq<Script<S>>, stage: (nat, S) -> bool, st: Runner<S>, k: nat, s: S)
    requires At(list, stage, st, k) && k < |list| && list[k].ends(st.data, Some(s))
    ensures Converges(list, stage, st, k, st.Record(s, k), k + 1)
  {
    if OneEndAt(list[k], stage, k) {
      OnlyThisEnd(list[k], stage, k, st.data, s);
    }
  }

  lemma OnlyThisEnd<S(!new)>(script: Script<S>, stage: (nat, S) -> bool, k: nat, s: S, s': S)
    requires OneEndAt(script, stage, k) && stage(k, s) && script.ends(s, Some(s'))
    ensures forall end :: script.ends(s, end) ==> end == Some(s')
  {
  }

  lemma ConvergesTwice<S(!new)>(list: seq<Script<S>>, stage: (nat, S) -> bool, a: Runner<S>, i: nat, b: Runner<S>,
                                j: nat, c: Runner<S>, k: nat)
    requires i <= j <= k <= |list| && Converges(list, stage, a, i, b, j) && Converges(list, stage, b, j, c, k)
    ensures Converges(list, stage, a, i, c, k)
  {
    hide OneEndAt, Completes;
  }

  /** One run that dies leaves a longer recorded prefix, or the same, from which a complete run has the ends it
      might have had. */
  lemma {:induction false} DyingConverges<S(!new)>(list: seq<Script<S>>, stage: (nat, S) -> bool, st: Runner<S>, k: nat,
                                                    st': Runner<S>)
    returns (k': nat)
    requires Absorbing(list, stage) && At(list, stage, st, k) && Dies(list, st, k, st')
    ensures k <= k' && At(list, stage, st', k') && Converges(list, stage, st, k, st', k')
    decreases |list| - k
  {
    hide Absorbing, Converges, Completes;
    k' := k;
    if st' == st {
      ConvergesToItself(list, stage, st, k);
    } else {
      AbsorbsHere(list, stage, k, st.data);
      if st'.recorded == st.recorded &&
         (list[k].dies(st.data, st'.data) || list[k].ends(st.data, Some(st'.data))) {
        SameEndsConverge(list, stage, st, k, st'.data);
      } else {
        var s :| list[k].ends(st.data, Some(s)) && Dies(list, st.Record(s, k), k + 1, st');
        RecordedNext(list, stage, st, k, s);
        OneStepConverges(list, stage, st, k, s);
        k' := DyingConverges(list, stage, st.Record(s, k), k + 1, st');
        ConvergesTwice(list, stage, st, k, st.Record(s, k), k + 1, st', k');
      }
    }
  }

  lemma ConvergesToItself<S(!new)>(list: seq<Script<S>>, stage: (nat, S) -> bool, st: Runner<S>, k: nat)
    requires k <= |list|
    ensures Converges(list, stage, st, k, st, k)
  {
  }

  /** An uninterrupted run does end. */
  lemma {:induction false} SomeEnd<S(!new)>(list: seq<Script<S>>, stage: (nat, S) -> bool, st: Runner<S>, k: nat)
    returns (end: Option<Runner<S>>)
    requires Absorbing(list, stage) && At(list, stage, st, k)
    ensures Completes(list, st, k, end)
    decreases |list| - k
  {
    hide Absorbing;
    if k == |list| {
      end := Some(st);
    } else {
      AbsorbsHere(list, stage, k, st.data);
      var e :| list[k].ends(st.data, e);
      if e.None? {
        end := None;
      } else {
        RecordedNext(list, stage, st, k, e.value);
        end := SomeEnd(list, stage, st.Record(e.value, k), k + 1);
      }
    }
  }

  /** Any number of runs, each from the top of the list and each dying somewhere or finishing. */
  ghost predicate History<S(!new)>(list: seq<Script<S>>, states: seq<Runner<S>>) {
    states != [] && forall i :: 0 <= i < |states| - 1 ==> Dies(list, states[i], 0, states[i + 1])
  }

  lemma {:induction false} HistoryAt<S(!new)>(list: seq<Script<S>>, stage: (nat, S) -> bool,
                                              states: seq<Runner<S>>, i: nat)
    returns (k: nat)
    requires Absorbing(list, stage) && History(list, states) && At(list, stage, states[0], 0) && i < |states|
    ensures At(list, stage, states[i], k) && Converges(list, stage, states[0], 0, states[i], k)
    ensures i > 0 ==> states[i - 1].recorded <= states[i].recorded
  {
    hide Absorbing, Converges, Completes, Dies;
    if i == 0 {
      k := 0;
      ConvergesToItself(list, stage, states[0], 0);
    } else {
      var j := HistoryAt(list, stage, states, i - 1);
      assert Dies(list, states[i - 1], 0, states[i - 1 + 1]);
      SkipsRecorded(list, states[i - 1], 0, j);
      k := DyingConverges(list, stage, states[i - 1], j, states[i]);
      ConvergesTwice(list, stage, states[0], 0, states[i - 1], j, states[i], k);
    }
  }

  /** For any list of absorbing migrations: after any history the recorded ones are a prefix of the list and only
      grow; a complete run does end, as one uninterrupted run from the start might have ended; and in all the ways it
      might have, when each recorded migration has one end only. */
  lemma AnyListConverges<S(!new)>(list: seq<Script<S>>, stage: (nat, S) -> bool, states: seq<Runner<S>>, i: nat)
    returns (k: nat, end: Option<Runner<S>>)
    requires Absorbing(list, stage) && History(list, states) && i < |states|
    requires states[0].recorded == {} && stage(0, states[0].data)
    ensures k <= |list| && forall j: nat :: j in states[i].recorded <==> j < k
    ensures i > 0 ==> states[i - 1].recorded <= states[i].recorded
    ensures Completes(list, states[i], 0, end)
    ensures forall e :: Completes(list, states[i], 0, e) ==> Completes(list, states[0], 0, e)
    ensures (forall j: nat :: j < k ==> OneEndAt(list[j], stage, j)) ==>
              forall e :: Completes(list, states[0], 0, e) ==> Completes(list, states[i], 0, e)
  {
    hide Absorbing, Completes, OneEndAt, Dies;
    assert At(list, stage, states[0], 0);
    k := HistoryAt(list, stage, states, i);
    SkipsRecorded(list, states[i], 0, k);
    end := SomeEnd(list, stage, states[i], k);
  }

  /** What is fully recorded is left alone. */
  lemma NothingReapplied<S(!new)>(list: seq<Script<S>>, st: Runner<S>, st': Runner<S>)
    requires (forall i: nat :: i in st.recorded <==> i < |list|) && Dies(list, st, 0, st')
    ensures st' == st && forall end :: Completes(list, st, 0, end) <==> end == Some(st)
  {
    SkipsRecorded(list, st, 0, |list|);
  }
}
