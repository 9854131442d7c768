/**
 * Sampling under a clause, by rejection (pip_plugin/src/sample/csampling.c), into the matrix of
 * sample_set.c: each group of variables is drawn until the group's atoms hold.
 */
module Sampling {
  import opened Basics
  import opened CsetModel
  import opened CsetSort
  import opened CsetShape
  import opened CsetVisit
  import opened Cset
  import opened Eqn
  import opened Clauses

  /** A group is given up after this many draws. */
  const CAP := 10000000

  // ---------------------------------------------------------------- looking values up

  /** The first place of a name. */
  function First(names: seq<VarId>, x: VarId): (i: nat)
    requires x in names
    ensures i < |names| && names[i] == x && x !in names[..i]
  {
    if names[0] == x then 0 else
      assert names == [names[0]] + names[1..];
      var i := First(names[1..], x);
      assert names[..i + 1] == [names[0]] + names[1..][..i];
      i + 1
  }

  /** pip_sample_var_val: the value kept for the variable, or else the one its seed gives. None is not a number. */
  function SampleVal(names: seq<VarId>, row: seq<Option<real>>, fallback: VarId -> real, x: VarId): real
    requires |row| == |names|
  {
    if x in names && row[First(names, x)].Some? then row[First(names, x)].value else fallback(x)
  }

  /** The values of all variables in one row. */
  function Env(names: seq<VarId>, row: seq<Option<real>>, fallback: VarId -> real): VarId -> real {
    x => if |row| == |names| then SampleVal(names, row, fallback, x) else 0.0
  }

  lemma FirstIs(names: seq<VarId>, x: VarId, i: nat)
    requires i < |names| && names[i] == x && x !in names[..i]
    ensures First(names, x) == i
  {
    var j := First(names, x);
    assert forall k :: 0 <= k < i ==> names[..i][k] == names[k];
    assert forall k :: 0 <= k < j ==> names[..j][k] == names[k];
  }

  /** A name among the first m is found there, whatever comes behind. */
  lemma PrefixVal(names: seq<VarId>, row: seq<Option<real>>, fallback: VarId -> real, x: VarId, m: nat)
    requires |row| == |names| && m <= |names| && x in names[..m]
    ensures Env(names, row, fallback)(x) == Env(names[..m], row[..m], fallback)(x)
  {
    var i := First(names[..m], x);
    assert names[i] == x && names[..i] == names[..m][..i];
    FirstIs(names, x, i);
  }

  /** The atom holds in the row as far as the first m names go. */
  ghost predicate HoldsIn(names: seq<VarId>, row: seq<Option<real>>, fallback: VarId -> real, m: nat, data: seq<Unit>)
    requires IsClause(data) && |row| == |names| && m <= |names|
  {
    Holds(AtomOf(data), Env(names[..m], row[..m], fallback))
  }

  lemma HoldsInPrefix(names: seq<VarId>, row: seq<Option<real>>, fallback: VarId -> real, m: nat, data: seq<Unit>)
    requires IsClause(data) && |row| == |names| && m <= |names| && forall x :: x in VarsOf(data) ==> x in names[..m]
    ensures HoldsIn(names, row, fallback, m, data) <==> Holds(AtomOf(data), Env(names, row, fallback))
  {
    hide Env;
    forall x | x in VarsOf(data) ensures Env(names[..m], row[..m], fallback)(x) == Env(names, row, fallback)(x) {
      PrefixVal(names, row, fallback, x, m);
    }
    AtomOfVars(AtomOf(data), Env(names[..m], row[..m], fallback), Env(names, row, fallback));
  }

  /** What is written behind the first m columns does not matter to atoms over their names. */
  lemma HoldsInLater(names: seq<VarId>, row: seq<Option<real>>, names': seq<VarId>, row': seq<Option<real>>,
      fallback: VarId -> real, m: nat, m': nat, data: seq<Unit>)
    requires IsClause(data) && |row| == |names| == |row'| == |names'| && m <= m' <= |names|
    requires names'[..m] == names[..m] && row'[..m] == row[..m] && forall x :: x in VarsOf(data) ==> x in names[..m]
    requires HoldsIn(names, row, fallback, m, data)
    ensures HoldsIn(names', row', fallback, m', data)
  {
    hide Env, Holds;
    forall x | x in VarsOf(data) ensures x in names'[..m'] {
      var i :| 0 <= i < m && names[..m][i] == x;
      assert names'[..m][i] == x && names'[..m'][i] == x;
    }
    HoldsInPrefix(names', row', fallback, m, data);
    HoldsInPrefix(names', row', fallback, m', data);
  }

  // ---------------------------------------------------------------- the sample matrix

  class SampleSet {
    const sampleCnt: nat
    const names: array<VarId>
    const vals: array2<Option<real>>

    ghost predicate Valid() {
      vals.Length0 == names.Length && vals.Length1 == sampleCnt
    }

    /** pip_sample_set_create: no value is set yet; what the names are is not said. */
    constructor (sampleCnt: nat, varCnt: nat, garbage: nat -> VarId)
      ensures Valid() && this.sampleCnt == sampleCnt && names.Length == varCnt && fresh(names) && fresh(vals)
      ensures forall i, s :: 0 <= i < varCnt && 0 <= s < sampleCnt ==> vals[i, s] == None
    {
      this.sampleCnt := sampleCnt;
      names := new VarId[varCnt](garbage);
      vals := new Option<real>[varCnt, sampleCnt]((_, _) => None);
    }

    ghost function Row(s: nat): (row: seq<Option<real>>)
      requires Valid() && s < sampleCnt
      reads vals
      ensures |row| == names.Length && forall i :: 0 <= i < |row| ==> row[i] == vals[i, s]
    {
      seq(names.Length, i requires 0 <= i < names.Length reads vals => vals[i, s])
    }

    /** The matrix, column by column. */
    ghost function Cells(): (v: Matrix)
      requires Valid()
      reads vals
      ensures |v| == names.Length
      ensures forall i :: 0 <= i < |v| ==> |v[i]| == sampleCnt && forall s :: 0 <= s < sampleCnt ==> v[i][s] == vals[i, s]
    {
      seq(names.Length, i requires 0 <= i < names.Length reads vals =>
        seq(sampleCnt, s requires 0 <= s < sampleCnt reads vals => vals[i, s]))
    }

    /** pip_sample_var_to_id */
    method VarToId(x: VarId) returns (id: int)
      ensures id == if x in names[..] then First(names[..], x) else -1
    {
      for i := 0 to names.Length
        invariant x !in names[..i]
      {
        if names[i] == x {
          assert names[..][i] == x && names[..][..i] == names[..i];
          FirstIs(names[..], x, i);
          return i;
        }
        assert names[..i + 1] == names[..i] + [names[i]];
      }
      assert names[..names.Length] == names[..];
      return -1;
    }

    /** pip_sample_var_val */
    method VarVal(sample: nat, x: VarId, fallback: VarId -> real) returns (val: real)
      requires Valid() && sample < sampleCnt
      ensures val == Env(names[..], Row(sample), fallback)(x)
    {
      var id := VarToId(x);
      if id >= 0 && vals[id, sample].Some? {
        return vals[id, sample].value;
      }
      return fallback(x);
    }

    /** The row as a value. */
    method ReadRow(sample: nat) returns (row: seq<Option<real>>)
      requires Valid() && sample < sampleCnt
      ensures row == Row(sample)
    {
      row := [];
      for i := 0 to names.Length
        invariant |row| == i && forall k :: 0 <= k < i ==> row[k] == vals[k, sample]
      {
        row := row + [vals[i, sample]];
      }
    }
  }

  /** pip_sample_test_clause on atoms first .. last */
  method TestClause(samples: SampleSet, sample: nat, clause: array<seq<Unit>>, first: nat, last: nat, fallback: VarId -> real)
    returns (ok: bool)
    requires samples.Valid() && sample < samples.sampleCnt && first <= last <= clause.Length && AllClauses(clause[..])
    ensures ok <==> forall i :: first <= i < last ==>
      Holds(AtomOf(clause[i]), Env(samples.names[..], samples.Row(sample), fallback))
  {
    var row := samples.ReadRow(sample);
    var v := Env(samples.names[..], row, fallback);
    hide Env, VarsOf;
    for i := first to last
      invariant forall k :: first <= k < i ==> Holds(AtomOf(clause[k]), v)
    {
      ghost var a := AtomOf(clause[i]);
      ghost var n :| IsAtom(clause[i], n) && n.pos == 0 && EraseAtom(n) == a;
      var holds := EvaluateAtom(clause[i], 0, v, n);
      if !holds { return false; }
    }
    return true;
  }

  // ---------------------------------------------------------------- one group

  /** pip_sampler_state, and the generator: its k-th draw is gen(k), never not a number. */
  class Sampler {
    const samples: SampleSet
    const clause: array<seq<Unit>>
    const gen: nat -> real
    const fallback: nat -> VarId -> real
    var drawn: nat
    var currSample: nat
    var firstAtom: nat
    var lastAtom: nat
    var firstVar: nat
    var lastVar: nat

    ghost predicate Valid()
      reads this
    {
      && samples.Valid()
      && firstVar <= lastVar <= samples.names.Length && firstAtom <= lastAtom <= clause.Length
      && currSample <= samples.sampleCnt
    }

    constructor (samples: SampleSet, clause: array<seq<Unit>>, gen: nat -> real, fallback: nat -> VarId -> real)
      requires samples.Valid()
      ensures Valid() && this.samples == samples && this.clause == clause && this.gen == gen && this.fallback == fallback
      ensures lastVar == 0 && lastAtom == 0 && drawn == 0
    {
      this.samples, this.clause, this.gen, this.fallback := samples, clause, gen, fallback;
      drawn, currSample, firstAtom, lastAtom, firstVar, lastVar := 0, 0, 0, 0, 0, 0;
    }

    /** populate_sample_vars for each member of a group: the next columns get their names. */
    method Populate(visited: seq<Element>)
      requires Valid() && lastVar + |visited| <= samples.names.Length
      modifies this`lastVar, samples.names
      ensures Valid() && lastVar == old(lastVar) + |visited|
      ensures samples.names[..old(lastVar)] == old(samples.names[..lastVar])
      ensures forall i :: 0 <= i < |visited| ==> samples.names[old(lastVar) + i] == visited[i].item
      ensures samples.names[..] == PlacedNames(old(samples.names[..]), old(lastVar), visited)
    {
      for i := 0 to |visited|
        invariant Valid() && lastVar == old(lastVar) + i
        invariant samples.names[..old(lastVar)] == old(samples.names[..lastVar])
        invariant forall k :: 0 <= k < i ==> samples.names[old(lastVar) + k] == visited[k].item
        invariant samples.names[lastVar..] == old(samples.names[..])[lastVar..]
      {
        samples.names[lastVar] := visited[i].item;
        lastVar := lastVar + 1;
      }
    }

    /** sample_one for each member of a group: the next columns of the current row get new values. */
    method DrawRow(visited: seq<Element>)
      requires Valid() && lastVar + |visited| <= samples.names.Length && currSample < samples.sampleCnt
      modifies this`lastVar, this`drawn, samples.vals
      ensures Valid() && lastVar == old(lastVar) + |visited| && drawn == old(drawn) + |visited|
      ensures forall i :: old(lastVar) <= i < lastVar ==>
        samples.vals[i, currSample] == Some(gen(old(drawn) + (i - old(lastVar))))
      ensures Unwritten(old(samples.Cells()), samples.Cells(), old(lastVar), currSample)
    {
      for k := 0 to |visited|
        invariant Valid() && lastVar == old(lastVar) + k && drawn == old(drawn) + k
        invariant forall i :: old(lastVar) <= i < lastVar ==>
          samples.vals[i, currSample] == Some(gen(old(drawn) + (i - old(lastVar))))
        invariant Unwritten(old(samples.Cells()), samples.Cells(), old(lastVar), currSample)
      {
        samples.vals[lastVar, currSample] := Some(gen(drawn));
        drawn := drawn + 1;
        lastVar := lastVar + 1;
      }
    }

    /**
     * The inner loop: the current row is drawn anew until it satisfies the group's atoms, or the cap is
     * reached. The row keeps the last try; the tries before it failed.
     */
    method DrawUntil(cs: ConnectedSet, group: Element, cnt0: nat, ghost visited: seq<Element>, ghost draw: nat) returns (cnt: nat, ok: bool)
      requires Valid() && firstVar + |visited| <= samples.names.Length && currSample < samples.sampleCnt
      requires AllClauses(clause[..]) && Locked(cs, group, visited)
      requires Placed(samples.names[..], firstVar, NamesOf(visited)) && MentionOnly(clause[..], firstAtom, lastAtom, NamesOf(visited))
      requires drawn == DrawAt(draw, |visited|, cnt0)
      modifies this`lastVar, this`drawn, samples.vals, cs`st, cs.st.elems`groupNext, cs.st.elems`groupPrev
      modifies cs.st.elems`groupRoot, cs.st.elems`head, cs.st.elems`tail, cs.st.elems`childCount
      ensures Valid() && lastVar == firstVar + |visited| && drawn == DrawAt(draw, |visited|, cnt)
      ensures Locked(cs, group, visited) && cs.st == old(cs.st)
      ensures cnt > cnt0 && RowTried(clause[..], firstAtom, lastAtom, NamesOf(visited), gen, draw, cnt0, cnt)
      ensures ok <==> TryHolds(clause[..], firstAtom, lastAtom, NamesOf(visited), gen, draw, cnt - 1)
      ensures RowDrawn(samples.Cells(), firstVar, |visited|, currSample, gen, DrawAt(draw, |visited|, cnt - 1))
      ensures ok ==> HoldAll(clause[..], firstAtom, lastAtom, EnvAt(samples.names[..], samples.Cells(), currSample, fallback))
      ensures Unwritten(old(samples.Cells()), samples.Cells(), firstVar, currSample)
    {
      hide IsClause, VarsOf, Locked, Unwritten, Env, Holds, ConnectedSet.Valid, ConnectedSet.GroupsNow, AllClauses;
      hide Placed, MentionOnly, TryHolds, DrawAt, RowDrawn, HoldAll, EnvAt;
      cnt, ok := cnt0, false;
      ghost var v0, c, nm, items := samples.Cells(), clause[..], samples.names[..], NamesOf(visited);
      UnwrittenNone(v0, firstVar, currSample);
      while true
        invariant Valid() && cnt >= cnt0 && drawn == DrawAt(draw, |visited|, cnt) && Locked(cs, group, visited) && cs.st == old(cs.st)
        invariant clause[..] == c && samples.names[..] == nm
        invariant Unwritten(v0, samples.Cells(), firstVar, currSample)
        invariant forall j :: cnt0 <= j < cnt ==> !TryHolds(c, firstAtom, lastAtom, items, gen, draw, j) && j + 1 < CAP
        decreases if cnt < CAP then CAP - cnt else 0
      {
        ghost var v := samples.Cells();
        ok := OneTry(cs, group, cnt, visited, draw);
        UnwrittenTwice(v0, v, samples.Cells(), firstVar, currSample);
        cnt := cnt + 1;
        if ok || cnt >= CAP { break; }
      }
    }

    /** The body of that loop: the group's columns of the current row get the next draws, and the row is tested. */
    method OneTry(cs: ConnectedSet, group: Element, ghost j: nat, ghost visited: seq<Element>, ghost draw: nat) returns (ok: bool)
      requires Valid() && firstVar + |visited| <= samples.names.Length && currSample < samples.sampleCnt
      requires AllClauses(clause[..]) && Locked(cs, group, visited)
      requires Placed(samples.names[..], firstVar, NamesOf(visited)) && MentionOnly(clause[..], firstAtom, lastAtom, NamesOf(visited))
      requires drawn == DrawAt(draw, |visited|, j)
      modifies this`lastVar, this`drawn, samples.vals, cs`st, cs.st.elems`groupNext, cs.st.elems`groupPrev
      modifies cs.st.elems`groupRoot, cs.st.elems`head, cs.st.elems`tail, cs.st.elems`childCount
      ensures Valid() && lastVar == firstVar + |visited| && drawn == DrawAt(draw, |visited|, j + 1)
      ensures Locked(cs, group, visited) && cs.st == old(cs.st)
      ensures ok <==> TryHolds(clause[..], firstAtom, lastAtom, NamesOf(visited), gen, draw, j)
      ensures RowDrawn(samples.Cells(), firstVar, |visited|, currSample, gen, DrawAt(draw, |visited|, j))
      ensures ok ==> HoldAll(clause[..], firstAtom, lastAtom, EnvAt(samples.names[..], samples.Cells(), currSample, fallback))
      ensures Unwritten(old(samples.Cells()), samples.Cells(), firstVar, currSample)
    {
      hide IsClause, VarsOf, Locked, Unwritten, Env, Holds, ConnectedSet.Valid, ConnectedSet.GroupsNow;
      hide Placed, MentionOnly, TryHolds, DrawAt, RowDrawn, HoldAll, EnvAt, RowHas;
      lastVar := firstVar;
      var again := IterateAgain(cs, group, visited);
      DrawRow(again);
      NextTry(draw, |visited|, j);
      RowIsDrawn(samples, firstVar, |visited|, currSample, gen, DrawAt(draw, |visited|, j));
      ok := TestClause(samples, currSample, clause, firstAtom, lastAtom, fallback(currSample));
      ghost var row := samples.Row(currSample);
      assert row == RowOf(samples.Cells(), currSample);
      TryTested(clause[..], firstAtom, lastAtom, samples.names[..], row, fallback(currSample), NamesOf(visited), firstVar, gen, draw, j);
      TestedAll(clause[..], firstAtom, lastAtom, samples.names[..], samples.Cells(), currSample, fallback);
    }

    /** The locked set visits a group in the same order every time. */
    method IterateAgain(cs: ConnectedSet, group: Element, ghost visited: seq<Element>) returns (again: seq<Element>)
      requires Locked(cs, group, visited)
      modifies cs`st, cs.st.elems`groupNext, cs.st.elems`groupPrev
      modifies cs.st.elems`groupRoot, cs.st.elems`head, cs.st.elems`tail, cs.st.elems`childCount
      ensures again == visited && Locked(cs, group, visited) && cs.st == old(cs.st)
    {
      hide *;
      LockedIs(cs, group, visited);
      again := cs.IterateGroup(group);
      IsLocked(cs, group, visited);
    }

    /** The rows are filled in turn. */
    method RejectionSample(cs: ConnectedSet, group: Element, ghost visited: seq<Element>) returns (cnt: nat, ok: bool, ghost run: GroupRun)
      requires Valid() && currSample == 0 && firstVar + |visited| == lastVar
      requires AllClauses(clause[..]) && Locked(cs, group, visited)
      requires Placed(samples.names[..], firstVar, NamesOf(visited)) && MentionOnly(clause[..], firstAtom, lastAtom, NamesOf(visited))
      modifies this`lastVar, this`drawn, this`currSample, samples.vals, cs`st, cs.st.elems`groupNext, cs.st.elems`groupPrev
      modifies cs.st.elems`groupRoot, cs.st.elems`head, cs.st.elems`tail, cs.st.elems`childCount
      ensures Valid() && lastVar == old(lastVar) && Locked(cs, group, visited) && cs.st == old(cs.st)
      ensures run.items == NamesOf(visited) && run.col == firstVar && run.draw == old(drawn)
      ensures drawn == DrawAt(run.draw, |visited|, cnt)
      ensures Tried(clause[..], firstAtom, lastAtom, run, gen, samples.sampleCnt) && cnt == run.tries[samples.sampleCnt]
      ensures CellsDrawn(samples.Cells(), run, gen, samples.sampleCnt)
      ensures ok <==> NoneGivenUp(clause[..], firstAtom, lastAtom, run, gen, samples.sampleCnt)
      ensures !ok ==> cnt >= CAP
      ensures ok ==> RowsHold(clause[..], firstAtom, lastAtom, samples.names[..], samples.Cells(), samples.sampleCnt, fallback)
      ensures FrontKept(old(samples.Cells()), samples.Cells(), firstVar)
    {
      hide RowsHold, HoldAll, EnvAt, Env, Locked, Unwritten, FrontKept, AllClauses, IsClause, VarsOf, ConnectedSet.Valid;
      hide Placed, MentionOnly, TryHolds, DrawAt, RowDrawn, RowTried, Tried, CellsDrawn, GivenUp;
      cnt, ok := 0, true;
      ghost var c, nm := clause[..], samples.names[..];
      ghost var v0 := samples.Cells();
      run := GroupRun(NamesOf(visited), firstVar, drawn, [0]);
      FrontNone(v0, firstVar);
      NoRows(c, firstAtom, lastAtom, nm, v0, fallback);
      NoTries(c, firstAtom, lastAtom, run, gen, v0);
      while currSample < samples.sampleCnt
        invariant Valid() && lastVar == old(lastVar) && Locked(cs, group, visited) && cs.st == old(cs.st)
        invariant clause[..] == c && samples.names[..] == nm
        invariant run.items == NamesOf(visited) && run.col == firstVar && run.draw == old(drawn) && |run.tries| == currSample + 1
        invariant drawn == DrawAt(run.draw, |visited|, cnt) && cnt == run.tries[currSample] && (!ok ==> cnt >= CAP)
        invariant Tried(c, firstAtom, lastAtom, run, gen, currSample) && CellsDrawn(samples.Cells(), run, gen, currSample)
        invariant ok <==> forall s :: 0 <= s < currSample ==> !GivenUp(c, firstAtom, lastAtom, run, gen, s)
        invariant ok ==> RowsHold(c, firstAtom, lastAtom, nm, samples.Cells(), currSample, fallback)
        invariant FrontKept(v0, samples.Cells(), firstVar)
        decreases samples.sampleCnt - currSample
      {
        ghost var v, was := samples.Cells(), cnt;
        var done;
        cnt, done := DrawUntil(cs, group, cnt, visited, run.draw);
        TriedMore(c, firstAtom, lastAtom, run, gen, v, samples.Cells(), currSample, was, cnt);
        if !done { CapReached(c, firstAtom, lastAtom, run.items, gen, run.draw, was, cnt); }
        ok := ok && done;
        if ok { OneMoreRow(c, firstAtom, lastAtom, nm, v, samples.Cells(), firstVar, currSample, fallback); }
        FrontTwice(v0, v, samples.Cells(), firstVar, currSample);
        run := run.(tries := run.tries + [cnt]);
        currSample := currSample + 1;
      }
    }

    /** The group's atoms are gathered. */
    method GatherStep(cs: ConnectedSet, group: Element)
      requires Valid() && cs.Valid() && cs.locked && group in cs.st.elems && group in cs.st.rep && cs.st.rep[group] == group
      requires AllClauses(clause[..])
      modifies this, clause, cs`st, cs.st.elems`groupNext, cs.st.elems`groupPrev
      modifies cs.st.elems`groupRoot, cs.st.elems`head, cs.st.elems`tail, cs.st.elems`childCount
      ensures Valid() && cs.Valid() && cs.locked && cs.st == old(cs.st)
      ensures GroupGathered(old(clause[..]), clause[..], old(lastAtom), lastAtom, GroupItems(cs.st, group))
      ensures firstAtom == old(lastAtom) && currSample == 0 && firstVar == lastVar == old(lastVar) && drawn == old(drawn)
    {
      hide GroupGathered, AllClauses, IsClause, VarsOf, ConnectedSet.Valid, GroupItems;
      ghost var c := clause[..];
      firstAtom := lastAtom;
      lastAtom := GroupAtoms(cs, group, clause, firstAtom);
      GroupGatheredFacts(c, clause[..], firstAtom, lastAtom, GroupItems(cs.st, group));
      firstVar := lastVar;
      currSample := 0;
    }

    /** The group's columns are named. */
    method NameStep(cs: ConnectedSet, group: Element) returns (ghost visited: seq<Element>)
      requires Valid() && cs.Valid() && cs.locked && group in cs.st.elems && group in cs.st.rep && cs.st.rep[group] == group
      requires lastVar + |GroupItems(cs.st, group)| <= samples.names.Length
      modifies this`lastVar, samples.names, cs`st, cs.st.elems`groupNext, cs.st.elems`groupPrev
      modifies cs.st.elems`groupRoot, cs.st.elems`head, cs.st.elems`tail, cs.st.elems`childCount
      ensures Valid() && cs.st == old(cs.st) && Locked(cs, group, visited) && lastVar == old(lastVar) + |visited|
      ensures Lists(visited, Class(cs.st.rep, group))
      ensures lastVar <= samples.names.Length && samples.names[..] == PlacedNames(old(samples.names[..]), old(lastVar), visited)
    {
      hide Locked, ConnectedSet.Valid, Visit, Distinct, Class, GroupItems, GoodNames;
      var members := cs.IterateGroup(group);
      visited := members;
      assert Lists(visited, Class(cs.st.rep, group));
      IsLocked(cs, group, visited);
      SetNames(cs);
      VisitedCount(cs.st, group, visited);
      Populate(members);
    }

    /** The first half of sample_lineage_group: the group's atoms are gathered and its columns named. */
    method PrepareGroup(cs: ConnectedSet, group: Element, ghost done: set<VarId>) returns (ghost visited: seq<Element>)
      requires Valid() && cs.Valid() && cs.locked && group in cs.st.elems && group in cs.st.rep && cs.st.rep[group] == group
      requires GroupItems(cs.st, group) !! done && samples.names.Length == |Items(cs.st.elems)|
      requires Tied(cs.st, clause[..]) && Columns(cs.st, clause[..], samples.names[..], lastVar, lastAtom, done)
      modifies this, clause, samples.names, cs`st, cs.st.elems`groupNext, cs.st.elems`groupPrev
      modifies cs.st.elems`groupRoot, cs.st.elems`head, cs.st.elems`tail, cs.st.elems`childCount
      ensures Valid() && cs.st == old(cs.st) && Locked(cs, group, visited)
      ensures GroupGathered(old(clause[..]), clause[..], old(lastAtom), lastAtom, GroupItems(cs.st, group))
      ensures Tied(cs.st, clause[..])
      ensures Columns(cs.st, clause[..], samples.names[..], lastVar, lastAtom, done + GroupItems(cs.st, group))
      ensures firstAtom == old(lastAtom) && currSample == 0 && firstVar == old(lastVar) && firstVar + |visited| == lastVar
      ensures drawn == old(drawn) && visited != [] && Lists(visited, Class(cs.st.rep, group))
      ensures Placed(samples.names[..], firstVar, NamesOf(visited)) && MentionOnly(clause[..], firstAtom, lastAtom, NamesOf(visited))
      ensures samples.names[..firstVar] == old(samples.names[..lastVar])
    {
      hide Tied, Columns, GroupGathered, Locked, AllClauses, IsClause, VarsOf, ConnectedSet.Valid;
      hide Visit, Lists, Class, GroupItems, Items, GoodNames, PlacedNames, Placed, MentionOnly;
      ghost var c, nm, m, l := clause[..], samples.names[..], lastVar, lastAtom;
      ColumnsFacts(cs.st, c, nm, m, l, done);
      SetNames(cs);
      GroupFits(cs.st, group, done, m);
      GatherStep(cs, group);
      visited := NameStep(cs, group);
      RootVisited(cs.st, group, visited);
      ColumnsMore(cs.st, c, clause[..], nm, samples.names[..], visited, m, l, lastAtom, done, group);
      GroupPlaced(cs.st, c, clause[..], nm, samples.names[..], visited, m, l, lastAtom, done, group);
    }

    /** sample_lineage_group without the CDF: the group's atoms, columns and values. */
    method SampleGroup(cs: ConnectedSet, group: Element, ghost done: set<VarId>) returns (cnt: nat, ok: bool, ghost run: GroupRun)
      requires Valid() && cs.Valid() && cs.locked && group in cs.st.elems && group in cs.st.rep && cs.st.rep[group] == group
      requires GroupItems(cs.st, group) !! done && samples.names.Length == |Items(cs.st.elems)|
      requires Tied(cs.st, clause[..]) && Columns(cs.st, clause[..], samples.names[..], lastVar, lastAtom, done)
      modifies this, clause, samples.names, samples.vals, cs`st, cs.st.elems`groupNext, cs.st.elems`groupPrev
      modifies cs.st.elems`groupRoot, cs.st.elems`head, cs.st.elems`tail, cs.st.elems`childCount
      ensures Valid() && cs.Valid() && cs.locked && cs.st == old(cs.st)
      ensures GroupGathered(old(clause[..]), clause[..], old(lastAtom), lastAtom, GroupItems(cs.st, group))
      ensures Tied(cs.st, clause[..])
      ensures Columns(cs.st, clause[..], samples.names[..], lastVar, lastAtom, done + GroupItems(cs.st, group))
      ensures GroupDone(clause[..], old(lastAtom), lastAtom, samples.names[..], samples.Cells(), gen, run, samples.sampleCnt)
      ensures Between(run, old(lastVar), lastVar, old(drawn), drawn) && RunOver(cs.st, group, run)
      ensures ok <==> NoneGivenUp(clause[..], old(lastAtom), lastAtom, run, gen, samples.sampleCnt)
      ensures !ok ==> drawn - old(drawn) >= CAP
      ensures samples.names[..old(lastVar)] == old(samples.names[..lastVar]) && FrontKept(old(samples.Cells()), samples.Cells(), old(lastVar))
      ensures ok && old(RowsDone(clause[..], samples.names[..], samples.Cells(), lastVar, lastAtom, samples.sampleCnt, fallback)) ==>
        RowsDone(clause[..], samples.names[..], samples.Cells(), lastVar, lastAtom, samples.sampleCnt, fallback)
    {
      hide Tied, Columns, GroupGathered, RowsDone, RowsHold, Locked, FrontKept, AllClauses, IsClause, VarsOf, ConnectedSet.Valid;
      hide GroupItems, Items, Placed, MentionOnly, Tried, CellsDrawn, NoneGivenUp, DrawAt, GroupDone, Lists, Class, GoodNames, RunOver;
      ghost var c, nm, v, m, l := clause[..], samples.names[..], samples.Cells(), lastVar, lastAtom;
      ghost var visited := PrepareGroup(cs, group, done);
      ghost var c', nm', m', l', d := clause[..], samples.names[..], lastVar, lastAtom, drawn;
      ColumnsFacts(cs.st, c', nm', m', l', done + GroupItems(cs.st, group));
      cnt, ok, run := RejectionSample(cs, group, visited);
      ghost var v' := samples.Cells();
      LockedIs(cs, group, visited);
      SetNames(cs);
      GroupIsDone(cs.st, c', l, l', nm', v', gen, run, samples.sampleCnt, visited, group, m', d, drawn);
      if !ok { AtLeastOneEach(d, |visited|, cnt); }
      GatheredPrefix(c, c', l, l', GroupItems(cs.st, group));
      if ok && RowsDone(c, nm, v, m, l, samples.sampleCnt, fallback) {
        RowsMore(c, c', nm, nm', v, v', m, m', l, l', samples.sampleCnt, done, GroupItems(cs.st, group), cs.st, fallback);
      }
    }
  }

  lemma RootVisited(st: Shape, group: Element, visited: seq<Element>)
    requires Lists(visited, Class(st.rep, group)) && group in st.rep && st.rep[group] == group
    ensures visited != []
  {
    assert group in Class(st.rep, group);
  }

  /** The names with those of the visited members from column m on. */
  ghost function PlacedNames(names: seq<VarId>, m: nat, visited: seq<Element>): (r: seq<VarId>)
    requires m + |visited| <= |names|
    ensures |r| == |names| && r[..m] == names[..m] && forall i :: 0 <= i < |visited| ==> r[m + i] == visited[i].item
  {
    names[..m] + seq(|visited|, i requires 0 <= i < |visited| => visited[i].item) + names[m + |visited|..]
  }

  lemma GatheredPrefix(was: seq<seq<Unit>>, s: seq<seq<Unit>>, start: nat, done: nat, g: set<VarId>)
    requires GroupGathered(was, s, start, done, g)
    ensures start <= done <= |s| == |was| && s[..start] == was[..start] && multiset(s) == multiset(was)
  {
  }

  /** The atoms first .. last hold. */
  ghost predicate HoldAll(c: seq<seq<Unit>>, first: nat, last: nat, env: VarId -> real) {
    last <= |c| && forall i :: first <= i < last ==> IsClause(c[i]) && Holds(AtomOf(c[i]), env)
  }

  function RowOf(v: Matrix, s: nat): (row: seq<Option<real>>)
    ensures |row| == |v| && forall i :: 0 <= i < |v| && s < |v[i]| ==> row[i] == v[i][s]
  {
    seq(|v|, i requires 0 <= i < |v| => if s < |v[i]| then v[i][s] else None)
  }

  function EnvAt(names: seq<VarId>, v: Matrix, s: nat, fallback: nat -> VarId -> real): VarId -> real {
    Env(names, RowOf(v, s), fallback(s))
  }

  /** The atoms first .. last hold in the first n rows. */
  ghost predicate RowsHold(c: seq<seq<Unit>>, first: nat, last: nat, names: seq<VarId>, v: Matrix, n: nat, fallback: nat -> VarId -> real) {
    forall s :: 0 <= s < n ==> HoldAll(c, first, last, EnvAt(names, v, s, fallback))
  }

  lemma NoRows(c: seq<seq<Unit>>, first: nat, last: nat, names: seq<VarId>, v: Matrix, fallback: nat -> VarId -> real)
    ensures RowsHold(c, first, last, names, v, 0, fallback)
  {
  }

  /** Writing one row leaves the others as they are. */
  lemma OneMoreRow(c: seq<seq<Unit>>, first: nat, last: nat, names: seq<VarId>, v: Matrix, w: Matrix, m: nat, n: nat, fallback: nat -> VarId -> real)
    requires RowsHold(c, first, last, names, v, n, fallback) && Unwritten(v, w, m, n)
    requires HoldAll(c, first, last, EnvAt(names, w, n, fallback))
    ensures RowsHold(c, first, last, names, w, n + 1, fallback)
  {
    hide HoldAll, Env;
    forall s | 0 <= s < n + 1 ensures HoldAll(c, first, last, EnvAt(names, w, s, fallback)) {
      if s < n {
        assert HoldAll(c, first, last, EnvAt(names, v, s, fallback));
        assert RowOf(w, s) == RowOf(v, s);
      }
    }
  }

  lemma UnwrittenNone(v: Matrix, m: nat, s: nat)
    ensures Unwritten(v, v, m, s)
  {
  }

  lemma UnwrittenTwice(u: Matrix, v: Matrix, w: Matrix, m: nat, s: nat)
    requires Unwritten(u, v, m, s) && Unwritten(v, w, m, s)
    ensures Unwritten(u, w, m, s)
  {
  }

  lemma FrontNone(v: Matrix, m: nat)
    ensures FrontKept(v, v, m)
  {
  }

  lemma FrontTwice(u: Matrix, v: Matrix, w: Matrix, m: nat, s: nat)
    requires FrontKept(u, v, m) && Unwritten(v, w, m, s)
    ensures FrontKept(u, w, m)
  {
    forall i | 0 <= i < |u| && i < m ensures w[i] == u[i] { assert w[i] == v[i]; }
  }

  /** The set is locked, and these are the members of the group in the order they are visited. */
  ghost predicate Locked(cs: ConnectedSet, group: Element, visited: seq<Element>)
    reads cs, cs.st.elems
  {
    && cs.Valid() && cs.locked && group in cs.st.elems && group in cs.st.rep
    && visited == Visit(cs.st.kids, cs.st.rank, cs.st.rep[group])
  }

  lemma LockedIs(cs: ConnectedSet, group: Element, visited: seq<Element>)
    requires Locked(cs, group, visited)
    ensures cs.Valid() && cs.locked && group in cs.st.elems && group in cs.st.rep
    ensures visited == Visit(cs.st.kids, cs.st.rank, cs.st.rep[group])
  {
  }

  lemma IsLocked(cs: ConnectedSet, group: Element, visited: seq<Element>)
    requires cs.Valid() && cs.locked && group in cs.st.elems && group in cs.st.rep
    requires visited == Visit(cs.st.kids, cs.st.rank, cs.st.rep[group])
    ensures Locked(cs, group, visited)
  {
  }

  type Matrix = seq<seq<Option<real>>>

  /** Nothing outside the columns from m on of row s was written. */
  ghost predicate Unwritten(v: Matrix, w: Matrix, m: nat, s: nat) {
    |w| == |v| && forall i :: 0 <= i < |v| ==> |w[i]| == |v[i]| && forall r :: 0 <= r < |v[i]| && (i < m || r != s) ==> w[i][r] == v[i][r]
  }

  /** The first m columns are as they were. */
  ghost predicate FrontKept(v: Matrix, w: Matrix, m: nat) {
    |w| == |v| && forall i :: 0 <= i < |v| && i < m ==> w[i] == v[i]
  }

  // ---------------------------------------------------------------- what is known between groups

  /** All variables of an atom are members, and they share a group. */
  ghost predicate Tied(st: Shape, c: seq<seq<Unit>>) {
    forall i, x, y :: 0 <= i < |c| && x in VarsOf(c[i]) && y in VarsOf(c[i]) ==>
      y in Items(st.elems) && Connected(st.links, x, y)
  }

  /** The first m columns are those of the variables done, the first l atoms those that mention them. */
  ghost predicate Columns(st: Shape, c: seq<seq<Unit>>, names: seq<VarId>, m: nat, l: nat, done: set<VarId>) {
    && m <= |names| && l <= |c| && AllClauses(c)
    && done <= Items(st.elems) && |done| == m && (forall x :: x in done <==> x in names[..m])
    && (forall i :: 0 <= i < l ==> VarsOf(c[i]) <= done && VarsOf(c[i]) != {})
    && (forall i :: l <= i < |c| ==> VarsOf(c[i]) !! done)
  }

  /** The first l atoms hold in all n rows. */
  ghost predicate RowsDone(c: seq<seq<Unit>>, names: seq<VarId>, v: Matrix, m: nat, l: nat, n: nat, fallback: nat -> VarId -> real) {
    && |v| == |names| && m <= |names| && l <= |c| && AllClauses(c)
    && forall s, i :: 0 <= s < n && 0 <= i < l ==> HoldsIn(names, RowOf(v, s), fallback(s), m, c[i])
  }

  /** An atom that mentions a variable of a group has all its variables there. */
  lemma WholeInGroup(st: Shape, c: seq<seq<Unit>>, i: nat, r: Element)
    requires GoodNames(st) && Tied(st, c) && i < |c| && Mentions(c[i], GroupItems(st, r))
    ensures VarsOf(c[i]) <= GroupItems(st, r) && VarsOf(c[i]) != {}
  {
    hide VarsOf, RepsOk, DistinctItems;
    var x :| x in GroupItems(st, r) && x in VarsOf(c[i]);
    var e :| e in Class(st.rep, r) && e.item == x;
    forall y | y in VarsOf(c[i]) ensures y in GroupItems(st, r) {
      assert y in Items(st.elems) && Connected(st.links, x, y);
      var e' :| e' in st.elems && e'.item == y;
      SameRootIffConnected(st.links, st.rep, e, e');
    }
  }

  lemma SuffixSame(s: seq<seq<Unit>>, t: seq<seq<Unit>>, l: nat)
    requires multiset(s) == multiset(t) && |s| == |t| && l <= |s| && s[..l] == t[..l]
    ensures multiset(s[l..]) == multiset(t[l..])
  {
    assert s == s[..l] + s[l..] && t == t[..l] + t[l..];
    assert multiset(s) == multiset(s[..l]) + multiset(s[l..]);
    assert multiset(t) == multiset(t[..l]) + multiset(t[l..]);
    forall x ensures multiset(s[l..])[x] == multiset(t[l..])[x] {
      assert multiset(s)[x] == multiset(s[..l])[x] + multiset(s[l..])[x];
      assert multiset(t)[x] == multiset(t[..l])[x] + multiset(t[l..])[x];
    }
  }

  /** What stands behind the placed atoms stood there before. */
  lemma FromSuffix(s: seq<seq<Unit>>, t: seq<seq<Unit>>, l: nat, i: nat) returns (j: nat)
    requires multiset(s) == multiset(t) && |s| == |t| && l <= |s| && s[..l] == t[..l] && l <= i < |t|
    ensures l <= j < |s| && s[j] == t[i]
  {
    SuffixSame(s, t, l);
    assert t[l..][i - l] == t[i];
    assert t[i] in multiset(t[l..]);
    assert t[i] in s[l..];
    var k :| 0 <= k < |s[l..]| && s[l..][k] == t[i];
    j := l + k;
  }

  lemma TiedPermuted(st: Shape, c: seq<seq<Unit>>, c': seq<seq<Unit>>)
    requires Tied(st, c) && multiset(c') == multiset(c)
    ensures Tied(st, c')
  {
    hide VarsOf, Connected;
    forall i, x, y | 0 <= i < |c'| && x in VarsOf(c'[i]) && y in VarsOf(c'[i])
      ensures y in Items(st.elems) && Connected(st.links, x, y)
    {
      assert c'[i] in multiset(c');
      assert c'[i] in c;
      var j :| 0 <= j < |c| && c[j] == c'[i];
    }
  }

  lemma {:induction false} ItemCount(s: set<Element>)
    requires DistinctItems(s)
    ensures |Items(s)| == |s|
    decreases |s|
  {
    if exists e :: e in s {
      var e :| e in s;
      ItemCount(s - {e});
      assert Items(s) == Items(s - {e}) + {e.item};
    } else {
      assert s == {};
    }
  }

  /** The members of a class, each once, have as many items. */
  lemma VisitedCount(st: Shape, r: Element, visited: seq<Element>)
    requires GoodNames(st)
    requires Lists(visited, Class(st.rep, r))
    ensures |visited| == |GroupItems(st, r)| && GroupItems(st, r) <= Items(st.elems)
    ensures forall x :: x in GroupItems(st, r) <==> exists i :: 0 <= i < |visited| && visited[i].item == x
  {
    hide RepsOk;
    DistinctCount(visited, Class(st.rep, r));
    ItemCount(Class(st.rep, r));
    forall x ensures x in GroupItems(st, r) <==> exists i :: 0 <= i < |visited| && visited[i].item == x {
      if x in GroupItems(st, r) {
        var e :| e in Class(st.rep, r) && e.item == x;
        assert e in visited;
      }
      if i :| 0 <= i < |visited| && visited[i].item == x {
        assert visited[i] in visited;
      }
    }
  }

  /** The group's columns and atoms come next. */
  lemma ColumnsMore(st: Shape, c: seq<seq<Unit>>, c': seq<seq<Unit>>, names: seq<VarId>, names': seq<VarId>, visited: seq<Element>,
      m: nat, l: nat, l': nat, done: set<VarId>, r: Element)
    requires GoodNames(st) && Tied(st, c) && Columns(st, c, names, m, l, done)
    requires GroupItems(st, r) !! done
    requires Lists(visited, Class(st.rep, r))
    requires GroupGathered(c, c', l, l', GroupItems(st, r))
    requires |names'| == |names| && m + |visited| <= |names| && names'[..m] == names[..m]
    requires forall i :: 0 <= i < |visited| ==> names'[m + i] == visited[i].item
    ensures Columns(st, c', names', m + |visited|, l', done + GroupItems(st, r)) && Tied(st, c')
  {
    hide GoodNames, Tied, VarsOf, IsClause, GroupItems, Distinct;
    var g, m' := GroupItems(st, r), m + |visited|;
    VisitedCount(st, r, visited);
    TiedPermuted(st, c, c');
    forall x ensures x in done + g <==> x in names'[..m'] { NamesMore(names, names', visited, m, x); }
    forall i | 0 <= i < l' ensures VarsOf(c'[i]) <= done + g && VarsOf(c'[i]) != {} {
      if i < l {
        assert c'[i] == c'[..l][i] == c[..l][i];
      } else {
        WholeInGroup(st, c', i, r);
      }
    }
    forall i | l' <= i < |c'| ensures VarsOf(c'[i]) !! done + g {
      var j := FromSuffix(c, c', l, i);
      assert !Mentions(c'[i], g);
    }
  }

  lemma NamesMore(names: seq<VarId>, names': seq<VarId>, visited: seq<Element>, m: nat, x: VarId)
    requires |names'| == |names| && m + |visited| <= |names| && names'[..m] == names[..m]
    requires forall i :: 0 <= i < |visited| ==> names'[m + i] == visited[i].item
    ensures x in names'[..m + |visited|] <==> x in names[..m] || exists i :: 0 <= i < |visited| && visited[i].item == x
  {
    var p := names'[..m + |visited|];
    if x in names[..m] {
      var i :| 0 <= i < m && names[..m][i] == x;
      assert p[i] == names'[..m][i] == x;
    }
    if i :| 0 <= i < |visited| && visited[i].item == x { assert p[m + i] == x; }
    if x in p {
      var i :| 0 <= i < |p| && p[i] == x;
      if i < m { assert names[..m][i] == names'[..m][i] == x; } else { assert visited[i - m].item == x; }
    }
  }

  /** What was satisfied stays so, and the group's atoms are satisfied too. */
  lemma RowsMore(c: seq<seq<Unit>>, c': seq<seq<Unit>>, names: seq<VarId>, names': seq<VarId>, v: Matrix, v': Matrix,
      m: nat, m': nat, l: nat, l': nat, n: nat, done: set<VarId>, g: set<VarId>, st: Shape, fallback: nat -> VarId -> real)
    requires Columns(st, c, names, m, l, done) && Columns(st, c', names', m', l', done + g)
    requires RowsDone(c, names, v, m, l, n, fallback) && RowsHold(c', l, l', names', v', n, fallback)
    requires l <= l' && m <= m' && c'[..l] == c[..l] && |names'| == |names| == |v'| && names'[..m] == names[..m]
    requires FrontKept(v, v', m)
    ensures RowsDone(c', names', v', m', l', n, fallback)
  {
    hide HoldsIn, Env, VarsOf, IsClause, Holds;
    forall s, i | 0 <= s < n && 0 <= i < l' ensures HoldsIn(names', RowOf(v', s), fallback(s), m', c'[i]) {
      if i < l {
        assert c'[i] == c'[..l][i] == c[i];
        assert RowOf(v', s)[..m] == RowOf(v, s)[..m];
        HoldsInLater(names, RowOf(v, s), names', RowOf(v', s), fallback(s), m, m', c[i]);
      } else {
        assert HoldAll(c', l, l', EnvAt(names', v', s, fallback));
        HoldsInPrefix(names', RowOf(v', s), fallback(s), m', c'[i]);
      }
    }
  }

  lemma ColumnsFacts(st: Shape, c: seq<seq<Unit>>, names: seq<VarId>, m: nat, l: nat, done: set<VarId>)
    requires Columns(st, c, names, m, l, done)
    ensures m <= |names| && l <= |c| && AllClauses(c) && done <= Items(st.elems) && |done| == m
  {
  }

  lemma SetNames(cs: ConnectedSet)
    requires cs.Valid()
    ensures GoodNames(cs.st)
  {
  }

  /** There is room for the columns of a group not yet done. */
  lemma GroupFits(st: Shape, r: Element, done: set<VarId>, m: nat)
    requires GoodNames(st) && GroupItems(st, r) !! done && done <= Items(st.elems) && |done| == m
    ensures m + |GroupItems(st, r)| <= |Items(st.elems)|
  {
    assert GroupItems(st, r) <= Items(st.elems);
    hide GoodNames, GroupItems, Items;
    FewerMembers(done + GroupItems(st, r), Items(st.elems));
  }

  lemma {:induction false} FewerMembers(s: set<VarId>, t: set<VarId>)
    requires s <= t
    ensures |s| <= |t|
    decreases |t|
  {
    if exists x :: x in s {
      var x :| x in s;
      FewerMembers(s - {x}, t - {x});
    } else {
      assert s == {};
    }
  }

  // ---------------------------------------------------------------- the whole clause

  /** The variables of the first k groups. */
  ghost function DoneItems(st: Shape, roots: seq<Element>, k: nat): set<VarId>
    requires k <= |roots|
  {
    if k == 0 then {} else DoneItems(st, roots, k - 1) + GroupItems(st, roots[k - 1])
  }

  lemma {:induction false} DoneItemsAre(st: Shape, roots: seq<Element>, k: nat)
    requires k <= |roots|
    ensures forall x :: x in DoneItems(st, roots, k) <==> exists j :: 0 <= j < k && x in GroupItems(st, roots[j])
    decreases k
  {
    hide GroupItems;
    if k > 0 { DoneItemsAre(st, roots, k - 1); }
  }

  /** The groups of different roots have no variable in common. */
  lemma GroupsApart(st: Shape, r: Element, q: Element)
    requires GoodNames(st) && r != q
    ensures GroupItems(st, r) !! GroupItems(st, q)
  {
    hide RepsOk;
    forall e, e' | e in Class(st.rep, r) && e' in Class(st.rep, q) ensures e.item != e'.item {
      assert e != e';
    }
  }

  lemma NextGroupApart(st: Shape, roots: seq<Element>, k: nat)
    requires GoodNames(st) && Distinct(roots) && k < |roots|
    ensures GroupItems(st, roots[k]) !! DoneItems(st, roots, k)
  {
    hide GoodNames, GroupItems;
    DoneItemsAre(st, roots, k);
    forall j | 0 <= j < k ensures GroupItems(st, roots[k]) !! GroupItems(st, roots[j]) {
      GroupsApart(st, roots[k], roots[j]);
    }
  }

  /** Every variable is in the group of some root. */
  lemma AllGroupsDone(st: Shape, roots: seq<Element>)
    requires GoodNames(st) && forall e :: e in st.elems ==> e in st.rep && st.rep[e] in roots
    ensures Items(st.elems) <= DoneItems(st, roots, |roots|)
  {
    hide RepsOk;
    DoneItemsAre(st, roots, |roots|);
    forall x | x in Items(st.elems) ensures x in DoneItems(st, roots, |roots|) {
      var e :| e in st.elems && e.item == x;
      var j :| 0 <= j < |roots| && roots[j] == st.rep[e];
      assert e in Class(st.rep, roots[j]);
      assert x in GroupItems(st, roots[j]);
    }
  }

  /** The atoms are cut into segments: those of segment k are just the ones that mention group k. */
  ghost predicate Segments(c: seq<seq<Unit>>, st: Shape, roots: seq<Element>, k: nat, bs: seq<nat>)
  {
    && k <= |roots| && |bs| == k + 1 && bs[0] == 0 && bs[k] <= |c|
    && (forall j :: 0 <= j < k ==> SegmentAt(c, st, roots, bs, j))
  }

  ghost predicate SegmentAt(c: seq<seq<Unit>>, st: Shape, roots: seq<Element>, bs: seq<nat>, j: nat)
    requires j < |roots| && j + 1 < |bs|
  {
    Segment(c, GroupItems(st, roots[j]), bs[j], bs[j + 1]) && bs[j + 1] <= bs[|bs| - 1]
  }

  ghost predicate Segment(c: seq<seq<Unit>>, g: set<VarId>, lo: nat, hi: nat) {
    lo <= hi && forall i :: 0 <= i < |c| ==> (Mentions(c[i], g) <==> lo <= i < hi)
  }

  lemma SegmentsMore(c: seq<seq<Unit>>, c': seq<seq<Unit>>, st: Shape, roots: seq<Element>, k: nat, bs: seq<nat>, l': nat,
      names: seq<VarId>, m: nat)
    requires k < |roots| && Segments(c, st, roots, k, bs) && GroupGathered(c, c', bs[k], l', GroupItems(st, roots[k]))
    requires Columns(st, c, names, m, bs[k], DoneItems(st, roots, k)) && GroupItems(st, roots[k]) !! DoneItems(st, roots, k)
    ensures Segments(c', st, roots, k + 1, bs + [l'])
  {
    hide VarsOf, IsClause, GroupItems;
    var l := bs[k];
    forall j | 0 <= j < k + 1 ensures SegmentAt(c', st, roots, bs + [l'], j) {
      var g := GroupItems(st, roots[j]);
      if j < k { assert SegmentAt(c, st, roots, bs, j); }
      forall i | 0 <= i < |c'| ensures Mentions(c'[i], g) <==> (bs + [l'])[j] <= i < (bs + [l'])[j + 1] {
        if i < l {
          assert c'[i] == c'[..l][i] == c[..l][i];
        } else {
          var i' := FromSuffix(c, c', l, i);
        }
      }
    }
  }

  lemma NoneDone(st: Shape, c: seq<seq<Unit>>, names: seq<VarId>, v: Matrix, n: nat, fallback: nat -> VarId -> real, roots: seq<Element>)
    requires AllClauses(c) && |v| == |names|
    ensures Columns(st, c, names, 0, 0, {}) && RowsDone(c, names, v, 0, 0, n, fallback) && Segments(c, st, roots, 0, [0])
    ensures DoneItems(st, roots, 0) == {}
  {
  }

  lemma ClauseTied(st: Shape, c: seq<seq<Unit>>)
    requires GroupsOfClause(st, c)
    ensures Tied(st, c)
  {
    hide VarsOf, Connected, AllVars;
    forall i, x, y | 0 <= i < |c| && x in VarsOf(c[i]) && y in VarsOf(c[i])
      ensures y in Items(st.elems) && Connected(st.links, x, y)
    {
      assert InOneAtom(c, x, y);
      VarsAmongAll(c, i);
    }
  }

  lemma {:induction false} VarsAmongAll(c: seq<seq<Unit>>, i: nat)
    requires i < |c|
    ensures VarsOf(c[i]) <= AllVars(c)
    decreases |c|
  {
    hide VarsOf;
    if i < |c| - 1 { VarsAmongAll(c[..|c| - 1], i); }
  }

  /** What sampling ends with: every atom that mentions a variable holds in every row. */
  ghost predicate AllSatisfied(c: seq<seq<Unit>>, samples: SampleSet, fallback: nat -> VarId -> real)
    requires samples.Valid() && AllClauses(c)
    reads samples.names, samples.vals
  {
    forall s, i :: 0 <= s < samples.sampleCnt && 0 <= i < |c| && VarsOf(c[i]) != {} ==>
      Holds(AtomOf(c[i]), Env(samples.names[..], samples.Row(s), fallback(s)))
  }

  lemma WholeRows(c: seq<seq<Unit>>, samples: SampleSet, l: nat, done: set<VarId>, st: Shape, fallback: nat -> VarId -> real)
    requires samples.Valid() && samples.names.Length == |Items(st.elems)| && Items(st.elems) <= done
    requires Tied(st, c) && Columns(st, c, samples.names[..], |done|, l, done)
    requires RowsDone(c, samples.names[..], samples.Cells(), |done|, l, samples.sampleCnt, fallback)
    ensures AllSatisfied(c, samples, fallback)
  {
    hide VarsOf, IsClause, Env, Holds, Connected, Items;
    var names := samples.names[..];
    assert done == Items(st.elems);
    forall s, i | 0 <= s < samples.sampleCnt && 0 <= i < |c| && VarsOf(c[i]) != {}
      ensures Holds(AtomOf(c[i]), Env(names, samples.Row(s), fallback(s)))
    {
      assert samples.Row(s) == RowOf(samples.Cells(), s);
      assert names[..|names|] == names && samples.Row(s)[..|names|] == samples.Row(s);
      if l <= i { var x :| x in VarsOf(c[i]); }
      assert HoldsIn(names, RowOf(samples.Cells(), s), fallback(s), |names|, c[i]);
    }
  }

  /** The cut of the atoms, and what the groups are. */
  ghost predicate Grouped(c0: seq<seq<Unit>>, c: seq<seq<Unit>>, st: Shape, roots: seq<Element>, bs: seq<nat>) {
    && multiset(c) == multiset(c0) && GroupsOfClause(st, c0) && GoodNames(st)
    && Segments(c, st, roots, |roots|, bs)
    && (forall i :: bs[|roots|] <= i < |c| ==> VarsOf(c[i]) == {})
    && (forall e :: e in st.elems ==> e in st.rep && st.rep[e] in roots)
  }

  /** The calls of sample_lineage_group, one for each root. */
  method SampleGroups(cs: ConnectedSet, state: Sampler, roots: seq<Element>) returns (capped: bool, ghost bs: seq<nat>, ghost runs: seq<GroupRun>)
    requires state.Valid() && cs.Valid() && cs.locked && Distinct(roots) && AllClauses(state.clause[..])
    requires forall r :: r in roots ==> r in cs.st.elems && r in cs.st.rep && cs.st.rep[r] == r
    requires state.samples.names.Length == |Items(cs.st.elems)| && Tied(cs.st, state.clause[..])
    requires state.lastVar == 0 && state.lastAtom == 0 && state.drawn == 0
    modifies state, state.clause, state.samples.names, state.samples.vals, cs`st, cs.st.elems`groupNext, cs.st.elems`groupPrev
    modifies cs.st.elems`groupRoot, cs.st.elems`head, cs.st.elems`tail, cs.st.elems`childCount
    ensures state.Valid() && cs.st == old(cs.st) && multiset(state.clause[..]) == multiset(old(state.clause[..]))
    ensures Segments(state.clause[..], cs.st, roots, |roots|, bs) && bs[|roots|] == state.lastAtom
    ensures Tied(cs.st, state.clause[..])
    ensures Columns(cs.st, state.clause[..], state.samples.names[..], state.lastVar, state.lastAtom, DoneItems(cs.st, roots, |roots|))
    ensures |runs| == |roots| && AllRuns(state.clause[..], bs, state.samples.names[..], state.samples.Cells(), state.gen, runs, state.samples.sampleCnt)
    ensures Chained(runs, state.lastVar, state.drawn) && RunsOver(cs.st, roots, runs)
    ensures capped <==> SomeGivenUp(state.clause[..], bs, runs, state.gen, state.samples.sampleCnt)
    ensures capped ==> state.drawn >= CAP
    ensures !capped ==> RowsDone(state.clause[..], state.samples.names[..], state.samples.Cells(),
      state.lastVar, state.lastAtom, state.samples.sampleCnt, state.fallback)
  {
    hide Tied, Columns, RowsDone, Segments, AllClauses, IsClause, VarsOf, ConnectedSet.Valid, DoneItems, GroupItems, Items, Progress;
    hide GroupGathered, Distinct, AllRuns, Chained, RunsOver, RunOver, SomeGivenUp, NoneGivenUp, GroupDone, FrontKept, Between;
    capped, bs, runs := false, [0], [];
    NoProgress(cs.st, state.clause[..], state.samples.names[..], state.samples.Cells(), state.gen, state.samples.sampleCnt, state.fallback, roots);
    for k := 0 to |roots|
      invariant state.Valid() && cs.Valid() && cs.locked && cs.st == old(cs.st)
      invariant multiset(state.clause[..]) == multiset(old(state.clause[..]))
      invariant Progress(cs.st, state.clause[..], state.samples.names[..], state.samples.Cells(), state.gen, state.samples.sampleCnt,
        state.fallback, roots, k, bs, runs, state.lastVar, state.lastAtom, state.drawn, capped)
    {
      SetNames(cs);
      NextGroupApart(cs.st, roots, k);
      assert roots[k] in roots;
      ghost var c, nm, m, v, l, d := state.clause[..], state.samples.names[..], state.lastVar, state.samples.Cells(), state.lastAtom, state.drawn;
      ProgressFacts(cs.st, c, nm, v, state.gen, state.samples.sampleCnt, state.fallback, roots, k, bs, runs, m, l, d, capped);
      var cnt, ok;
      ghost var run;
      cnt, ok, run := state.SampleGroup(cs, roots[k], DoneItems(cs.st, roots, k));
      GatheredPrefix(c, state.clause[..], l, state.lastAtom, GroupItems(cs.st, roots[k]));
      ProgressMore(cs.st, c, state.clause[..], nm, state.samples.names[..], v, state.samples.Cells(), state.gen, state.samples.sampleCnt,
        state.fallback, roots, k, bs, runs, run, m, state.lastVar, l, state.lastAtom, d, state.drawn, capped, ok);
      if !ok { capped := true; }
      bs, runs := bs + [state.lastAtom], runs + [run];
    }
    ProgressFacts(cs.st, state.clause[..], state.samples.names[..], state.samples.Cells(), state.gen, state.samples.sampleCnt, state.fallback,
      roots, |roots|, bs, runs, state.lastVar, state.lastAtom, state.drawn, capped);
  }

  /** What is known when the first k groups are done. */
  ghost predicate Progress(st: Shape, c: seq<seq<Unit>>, names: seq<VarId>, v: Matrix, gen: nat -> real, n: nat, fallback: nat -> VarId -> real,
      roots: seq<Element>, k: nat, bs: seq<nat>, runs: seq<GroupRun>, m: nat, l: nat, d: nat, capped: bool)
  {
    && Segments(c, st, roots, k, bs) && bs[k] == l && Tied(st, c) && Columns(st, c, names, m, l, DoneItems(st, roots, k))
    && (!capped ==> RowsDone(c, names, v, m, l, n, fallback))
    && |runs| == k && AllRuns(c, bs, names, v, gen, runs, n) && Chained(runs, m, d) && RunsOver(st, roots, runs)
    && (capped <==> SomeGivenUp(c, bs, runs, gen, n)) && (capped ==> d >= CAP)
  }

  lemma ProgressFacts(st: Shape, c: seq<seq<Unit>>, names: seq<VarId>, v: Matrix, gen: nat -> real, n: nat, fallback: nat -> VarId -> real,
      roots: seq<Element>, k: nat, bs: seq<nat>, runs: seq<GroupRun>, m: nat, l: nat, d: nat, capped: bool)
    requires Progress(st, c, names, v, gen, n, fallback, roots, k, bs, runs, m, l, d, capped)
    ensures Segments(c, st, roots, k, bs) && |bs| == k + 1 && bs[k] == l && Tied(st, c) && k <= |roots|
    ensures Columns(st, c, names, m, l, DoneItems(st, roots, k)) && (!capped ==> RowsDone(c, names, v, m, l, n, fallback))
    ensures |runs| == k && AllRuns(c, bs, names, v, gen, runs, n) && Chained(runs, m, d) && RunsOver(st, roots, runs)
    ensures (capped <==> SomeGivenUp(c, bs, runs, gen, n)) && (capped ==> d >= CAP)
  {
    hide Tied, Columns, RowsDone, AllRuns, Chained, RunsOver, SomeGivenUp;
  }

  lemma NoProgress(st: Shape, c: seq<seq<Unit>>, names: seq<VarId>, v: Matrix, gen: nat -> real, n: nat, fallback: nat -> VarId -> real,
      roots: seq<Element>)
    requires AllClauses(c) && |v| == |names| && Tied(st, c)
    ensures Progress(st, c, names, v, gen, n, fallback, roots, 0, [0], [], 0, 0, 0, false)
  {
    hide Tied, Columns, RowsDone, AllRuns, Chained, RunsOver, SomeGivenUp;
    NoneDone(st, c, names, v, n, fallback, roots);
    NoRuns(st, c, names, v, gen, n, roots);
  }

  lemma ProgressMore(st: Shape, c: seq<seq<Unit>>, c': seq<seq<Unit>>, names: seq<VarId>, names': seq<VarId>, v: Matrix, v': Matrix,
      gen: nat -> real, n: nat, fallback: nat -> VarId -> real, roots: seq<Element>, k: nat, bs: seq<nat>, runs: seq<GroupRun>, run: GroupRun,
      m: nat, m': nat, l: nat, l': nat, d: nat, d': nat, capped: bool, ok: bool)
    requires Progress(st, c, names, v, gen, n, fallback, roots, k, bs, runs, m, l, d, capped) && k < |roots|
    requires GroupItems(st, roots[k]) !! DoneItems(st, roots, k)
    requires GroupGathered(c, c', l, l', GroupItems(st, roots[k])) && Tied(st, c')
    requires Columns(st, c', names', m', l', DoneItems(st, roots, k) + GroupItems(st, roots[k]))
    requires GroupDone(c', l, l', names', v', gen, run, n) && Between(run, m, m', d, d') && RunOver(st, roots[k], run)
    requires (ok <==> NoneGivenUp(c', l, l', run, gen, n)) && (!ok ==> d' - d >= CAP)
    requires |names'| == |names| && m <= |names| && names'[..m] == names[..m] && FrontKept(v, v', m)
    requires ok && RowsDone(c, names, v, m, l, n, fallback) ==> RowsDone(c', names', v', m', l', n, fallback)
    ensures Progress(st, c', names', v', gen, n, fallback, roots, k + 1, bs + [l'], runs + [run], m', l', d', capped || !ok)
  {
    hide *;
    ProgressFacts(st, c, names, v, gen, n, fallback, roots, k, bs, runs, m, l, d, capped);
    GatheredPrefix(c, c', l, l', GroupItems(st, roots[k]));
    SegmentBounds(c, st, roots, k, bs);
    SegmentsMore(c, c', st, roots, k, bs, l', names, m);
    DoneMore(st, roots, k);
    RunsMore(c, c', bs, names, names', v, v', gen, runs, run, n, m, m', d, d', l, l');
    RunsOverMore(st, roots, runs, run);
    DrawsGrow(c', l, l', names', v', gen, run, n, m, m', d, d');
    ProgressIs(st, c', names', v', gen, n, fallback, roots, k + 1, bs + [l'], runs + [run], m', l', d', capped || !ok);
  }

  lemma ProgressIs(st: Shape, c: seq<seq<Unit>>, names: seq<VarId>, v: Matrix, gen: nat -> real, n: nat, fallback: nat -> VarId -> real,
      roots: seq<Element>, k: nat, bs: seq<nat>, runs: seq<GroupRun>, m: nat, l: nat, d: nat, capped: bool)
    requires Segments(c, st, roots, k, bs) && |bs| == k + 1 && bs[k] == l && Tied(st, c) && k <= |roots|
    requires Columns(st, c, names, m, l, DoneItems(st, roots, k)) && (!capped ==> RowsDone(c, names, v, m, l, n, fallback))
    requires |runs| == k && AllRuns(c, bs, names, v, gen, runs, n) && Chained(runs, m, d) && RunsOver(st, roots, runs)
    requires (capped <==> SomeGivenUp(c, bs, runs, gen, n)) && (capped ==> d >= CAP)
    ensures Progress(st, c, names, v, gen, n, fallback, roots, k, bs, runs, m, l, d, capped)
  {
    hide Tied, Columns, RowsDone, AllRuns, Chained, RunsOver, SomeGivenUp;
  }

  lemma SegmentBounds(c: seq<seq<Unit>>, st: Shape, roots: seq<Element>, k: nat, bs: seq<nat>)
    requires Segments(c, st, roots, k, bs)
    ensures |bs| == k + 1 && bs[k] <= |c| && forall j :: 0 <= j < |bs| ==> bs[j] <= bs[k]
  {
    hide Segment;
    forall j | 0 <= j < |bs| ensures bs[j] <= bs[k] {
      if j > 0 { assert SegmentAt(c, st, roots, bs, j - 1); }
    }
  }

  lemma DrawsGrow(c: seq<seq<Unit>>, first: nat, last: nat, names: seq<VarId>, v: Matrix, gen: nat -> real, run: GroupRun, n: nat,
      m: nat, m': nat, d: nat, d': nat)
    requires GroupDone(c, first, last, names, v, gen, run, n) && Between(run, m, m', d, d')
    ensures d <= d'
  {
    AtLeastOneEach(run.draw, |run.items|, run.tries[n]);
  }

  // ---------------------------------------------------------------- what was drawn

  function NamesOf(visited: seq<Element>): (s: seq<VarId>)
    ensures |s| == |visited| && forall i :: 0 <= i < |s| ==> s[i] == visited[i].item
  {
    seq(|visited|, i requires 0 <= i < |visited| => visited[i].item)
  }

  /** The variables have the columns from m on, and no others. */
  ghost predicate Placed(names: seq<VarId>, m: nat, items: seq<VarId>) {
    && items != [] && m + |items| <= |names|
    && (forall i :: 0 <= i < |items| ==> names[m + i] == items[i])
    && (forall i, j :: 0 <= i < j < |items| ==> items[i] != items[j])
    && (forall i, j :: 0 <= i < m && 0 <= j < |items| ==> names[i] != items[j])
  }

  /** The atoms first .. last mention these variables only. */
  ghost predicate MentionOnly(c: seq<seq<Unit>>, first: nat, last: nat, items: seq<VarId>) {
    first <= last <= |c| && forall i, x :: first <= i < last && x in VarsOf(c[i]) ==> x in items
  }

  /** The number of the first draw of a try. */
  function DrawAt(draw: nat, size: nat, j: nat): nat {
    draw + j * size
  }

  /** The values drawn from a number on, in order. */
  function TryValues(items: seq<VarId>, gen: nat -> real, at: nat): VarId -> real {
    x => if x in items then gen(at + First(items, x)) else 0.0
  }

  /** The atoms hold for try j of a group whose draws begin with number draw. */
  ghost predicate TryHolds(c: seq<seq<Unit>>, first: nat, last: nat, items: seq<VarId>, gen: nat -> real, draw: nat, j: nat) {
    HoldAll(c, first, last, TryValues(items, gen, DrawAt(draw, |items|, j)))
  }

  /** A row takes the tries from one number to another: all but the last fail, and the last one holds or reaches the cap. */
  ghost predicate RowTried(c: seq<seq<Unit>>, first: nat, last: nat, items: seq<VarId>, gen: nat -> real, draw: nat, from: nat, to: nat) {
    && from < to
    && (forall j :: from <= j < to - 1 ==> !TryHolds(c, first, last, items, gen, draw, j) && j + 1 < CAP)
    && (TryHolds(c, first, last, items, gen, draw, to - 1) || to >= CAP)
  }

  /**
   * One group: its variables in visiting order, its first column, the number of draws before it, and
   * the number of tries before each row and at the end.
   */
  datatype GroupRun = GroupRun(items: seq<VarId>, col: nat, draw: nat, tries: seq<nat>)

  ghost predicate Tried(c: seq<seq<Unit>>, first: nat, last: nat, run: GroupRun, gen: nat -> real, n: nat) {
    && |run.tries| == n + 1 && run.tries[0] == 0
    && forall s :: 0 <= s < n ==> RowTried(c, first, last, run.items, gen, run.draw, run.tries[s], run.tries[s + 1])
  }

  /** The try that a row keeps. */
  function LastTry(run: GroupRun, s: nat): nat
    requires s + 1 < |run.tries|
  {
    if run.tries[s + 1] == 0 then 0 else run.tries[s + 1] - 1
  }

  ghost predicate RowDrawn(v: Matrix, col: nat, size: nat, s: nat, gen: nat -> real, at: nat) {
    col + size <= |v| && forall i :: col <= i < col + size ==> s < |v[i]| && v[i][s] == Some(gen(at + (i - col)))
  }

  ghost predicate RowHas(row: seq<Option<real>>, col: nat, size: nat, gen: nat -> real, at: nat) {
    col + size <= |row| && forall i :: col <= i < col + size ==> row[i] == Some(gen(at + (i - col)))
  }

  /** The group's cells hold the draws of the tries kept. */
  ghost predicate CellsDrawn(v: Matrix, run: GroupRun, gen: nat -> real, n: nat) {
    && n < |run.tries|
    && forall s :: 0 <= s < n ==> RowDrawn(v, run.col, |run.items|, s, gen, DrawAt(run.draw, |run.items|, LastTry(run, s)))
  }

  ghost predicate GivenUp(c: seq<seq<Unit>>, first: nat, last: nat, run: GroupRun, gen: nat -> real, s: nat) {
    s + 1 < |run.tries| && !TryHolds(c, first, last, run.items, gen, run.draw, LastTry(run, s))
  }

  ghost predicate NoneGivenUp(c: seq<seq<Unit>>, first: nat, last: nat, run: GroupRun, gen: nat -> real, n: nat) {
    forall s :: 0 <= s < n ==> !GivenUp(c, first, last, run, gen, s)
  }

  /** The run takes the columns from m to m' and the draws from d to d'. */
  predicate Between(run: GroupRun, m: nat, m': nat, d: nat, d': nat) {
    run.col == m && ColEnd(run) == m' && run.draw == d && DrawEnd(run) == d'
  }

  function ColEnd(run: GroupRun): nat {
    run.col + |run.items|
  }

  function DrawEnd(run: GroupRun): nat {
    if run.tries == [] then run.draw else DrawAt(run.draw, |run.items|, run.tries[|run.tries| - 1])
  }

  ghost predicate GroupDone(c: seq<seq<Unit>>, first: nat, last: nat, names: seq<VarId>, v: Matrix, gen: nat -> real, run: GroupRun, n: nat) {
    && Placed(names, run.col, run.items) && first <= last <= |c|
    && Tried(c, first, last, run, gen, n) && CellsDrawn(v, run, gen, n)
  }

  /** The atoms of group k are those from bs[k] to bs[k + 1]. */
  ghost predicate AllRuns(c: seq<seq<Unit>>, bs: seq<nat>, names: seq<VarId>, v: Matrix, gen: nat -> real, runs: seq<GroupRun>, n: nat) {
    && |bs| == |runs| + 1
    && forall k :: 0 <= k < |runs| ==> GroupDone(c, bs[k], bs[k + 1], names, v, gen, runs[k], n)
  }

  /** Columns and draws of each group begin where those of the one before end. */
  ghost predicate Chained(runs: seq<GroupRun>, m: nat, d: nat) {
    && (if runs == [] then m == 0 && d == 0 else ColEnd(runs[|runs| - 1]) == m && DrawEnd(runs[|runs| - 1]) == d)
    && forall k :: 0 <= k < |runs| ==> Follows(runs, k)
  }

  predicate Follows(runs: seq<GroupRun>, k: nat)
    requires k < |runs|
  {
    if k == 0 then runs[k].col == 0 && runs[k].draw == 0
    else runs[k].col == ColEnd(runs[k - 1]) && runs[k].draw == DrawEnd(runs[k - 1])
  }

  /** The variables of run k are those of group k. */
  ghost predicate RunsOver(st: Shape, roots: seq<Element>, runs: seq<GroupRun>) {
    |runs| <= |roots| && forall k :: 0 <= k < |runs| ==> RunOver(st, roots[k], runs[k])
  }

  ghost predicate RunOver(st: Shape, r: Element, run: GroupRun) {
    forall x :: x in run.items <==> x in GroupItems(st, r)
  }

  ghost predicate SomeGivenUp(c: seq<seq<Unit>>, bs: seq<nat>, runs: seq<GroupRun>, gen: nat -> real, n: nat) {
    |bs| == |runs| + 1 && exists k, s :: 0 <= k < |runs| && 0 <= s < n && GivenUpAt(c, bs, runs, gen, k, s)
  }

  ghost predicate GivenUpAt(c: seq<seq<Unit>>, bs: seq<nat>, runs: seq<GroupRun>, gen: nat -> real, k: nat, s: nat)
    requires k < |runs| && |bs| == |runs| + 1
  {
    GivenUp(c, bs[k], bs[k + 1], runs[k], gen, s)
  }

  lemma NextTry(draw: nat, size: nat, j: nat)
    ensures DrawAt(draw, size, j) + size == DrawAt(draw, size, j + 1)
  {
    assert (j + 1) * size == j * size + size;
  }

  lemma {:induction false} AtLeastOneEach(draw: nat, size: nat, j: nat)
    ensures size > 0 ==> DrawAt(draw, size, j) >= draw + j
    ensures DrawAt(draw, size, 0) == draw
    decreases j
  {
    if j > 0 {
      AtLeastOneEach(draw, size, j - 1);
      NextTry(draw, size, j - 1);
    }
  }

  lemma RowIsDrawn(samples: SampleSet, col: nat, size: nat, s: nat, gen: nat -> real, at: nat)
    requires samples.Valid() && s < samples.sampleCnt && col + size <= samples.names.Length
    requires forall i :: col <= i < col + size ==> samples.vals[i, s] == Some(gen(at + (i - col)))
    ensures RowDrawn(samples.Cells(), col, size, s, gen, at)
    ensures RowHas(samples.Row(s), col, size, gen, at)
  {
  }

  /** Among the names the group's variables have the values just drawn. */
  lemma PlacedValue(names: seq<VarId>, row: seq<Option<real>>, fallback: VarId -> real, items: seq<VarId>, m: nat, gen: nat -> real, at: nat,
      x: VarId)
    requires Placed(names, m, items) && |row| == |names| && x in items
    requires RowHas(row, m, |items|, gen, at)
    ensures Env(names, row, fallback)(x) == TryValues(items, gen, at)(x)
  {
    var j := First(items, x);
    assert names[m + j] == items[j] == x;
    forall i | 0 <= i < m + j ensures names[i] != x {
      if i >= m {
        assert names[m + (i - m)] == items[i - m] == items[..j][i - m];
      } else {
        assert names[i] != items[j];
      }
    }
    FirstIs(names, x, m + j);
    assert row[m + j] == Some(gen(at + j));
  }

  /** The test of the row is the test of the try. */
  lemma TryTested(c: seq<seq<Unit>>, first: nat, last: nat, names: seq<VarId>, row: seq<Option<real>>, fallback: VarId -> real,
      items: seq<VarId>, m: nat, gen: nat -> real, draw: nat, j: nat)
    requires Placed(names, m, items) && MentionOnly(c, first, last, items) && |row| == |names| && AllClauses(c)
    requires RowHas(row, m, |items|, gen, DrawAt(draw, |items|, j))
    ensures TryHolds(c, first, last, items, gen, draw, j) <==>
      forall i :: first <= i < last ==> Holds(AtomOf(c[i]), Env(names, row, fallback))
  {
    hide Placed, Env, Holds, IsClause, DrawAt, TryValues, RowHas, AtomVars, AtomOf;
    var at := DrawAt(draw, |items|, j);
    var e, f := Env(names, row, fallback), TryValues(items, gen, at);
    forall i | first <= i < last ensures IsClause(c[i]) && (Holds(AtomOf(c[i]), e) <==> Holds(AtomOf(c[i]), f)) {
      forall x | x in VarsOf(c[i]) ensures e(x) == f(x) { PlacedValue(names, row, fallback, items, m, gen, at, x); }
      AtomOfVars(AtomOf(c[i]), e, f);
    }
  }

  lemma TestedAll(c: seq<seq<Unit>>, first: nat, last: nat, names: seq<VarId>, v: Matrix, s: nat, fallback: nat -> VarId -> real)
    requires first <= last <= |c| && AllClauses(c)
    ensures HoldAll(c, first, last, EnvAt(names, v, s, fallback)) <==>
      forall i :: first <= i < last ==> Holds(AtomOf(c[i]), Env(names, RowOf(v, s), fallback(s)))
  {
    hide Env, Holds, IsClause;
  }

  lemma NoTries(c: seq<seq<Unit>>, first: nat, last: nat, run: GroupRun, gen: nat -> real, v: Matrix)
    requires run.tries == [0]
    ensures Tried(c, first, last, run, gen, 0) && CellsDrawn(v, run, gen, 0) && DrawAt(run.draw, |run.items|, 0) == run.draw
  {
    AtLeastOneEach(run.draw, |run.items|, 0);
  }

  lemma CapReached(c: seq<seq<Unit>>, first: nat, last: nat, items: seq<VarId>, gen: nat -> real, draw: nat, from: nat, to: nat)
    requires RowTried(c, first, last, items, gen, draw, from, to) && !TryHolds(c, first, last, items, gen, draw, to - 1)
    ensures to >= CAP
  {
  }

  /** One more row has been tried and drawn. */
  lemma TriedMore(c: seq<seq<Unit>>, first: nat, last: nat, run: GroupRun, gen: nat -> real, v: Matrix, w: Matrix, s: nat, from: nat, to: nat)
    requires Tried(c, first, last, run, gen, s) && from == run.tries[s] && from < to
    requires RowTried(c, first, last, run.items, gen, run.draw, from, to)
    requires CellsDrawn(v, run, gen, s) && Unwritten(v, w, run.col, s)
    requires RowDrawn(w, run.col, |run.items|, s, gen, DrawAt(run.draw, |run.items|, to - 1))
    ensures var run' := run.(tries := run.tries + [to]);
      && Tried(c, first, last, run', gen, s + 1) && CellsDrawn(w, run', gen, s + 1)
      && (GivenUp(c, first, last, run', gen, s) <==> !TryHolds(c, first, last, run.items, gen, run.draw, to - 1))
      && forall r :: 0 <= r < s ==> (GivenUp(c, first, last, run', gen, r) <==> GivenUp(c, first, last, run, gen, r))
  {
    hide RowTried, TryHolds, DrawAt;
    var run' := run.(tries := run.tries + [to]);
    forall r | 0 <= r < s + 1 ensures RowDrawn(w, run'.col, |run'.items|, r, gen, DrawAt(run'.draw, |run'.items|, LastTry(run', r))) {
      if r < s { RowStays(v, w, run.col, |run.items|, r, s, gen, DrawAt(run.draw, |run.items|, LastTry(run, r))); }
    }
  }

  lemma RowStays(v: Matrix, w: Matrix, col: nat, size: nat, r: nat, s: nat, gen: nat -> real, at: nat)
    requires RowDrawn(v, col, size, r, gen, at) && Unwritten(v, w, col, s) && r != s
    ensures RowDrawn(w, col, size, r, gen, at)
  {
    forall i | col <= i < col + size ensures r < |w[i]| && w[i][r] == Some(gen(at + (i - col))) {
      assert v[i][r] == Some(gen(at + (i - col)));
    }
  }

  lemma FrontRowStays(v: Matrix, w: Matrix, col: nat, size: nat, r: nat, m: nat, gen: nat -> real, at: nat)
    requires RowDrawn(v, col, size, r, gen, at) && FrontKept(v, w, m) && col + size <= m
    ensures RowDrawn(w, col, size, r, gen, at)
  {
    forall i | col <= i < col + size ensures r < |w[i]| && w[i][r] == Some(gen(at + (i - col))) {
      assert v[i][r] == Some(gen(at + (i - col))) && w[i] == v[i];
    }
  }

  /** The columns and atoms of a group just prepared. */
  lemma GroupPlaced(st: Shape, c: seq<seq<Unit>>, c': seq<seq<Unit>>, names: seq<VarId>, names': seq<VarId>, visited: seq<Element>,
      m: nat, l: nat, l': nat, done: set<VarId>, r: Element)
    requires GoodNames(st) && Tied(st, c) && Columns(st, c, names, m, l, done) && GroupItems(st, r) !! done
    requires Lists(visited, Class(st.rep, r)) && visited != []
    requires GroupGathered(c, c', l, l', GroupItems(st, r))
    requires |names'| == |names| && m + |visited| <= |names| && names'[..m] == names[..m]
    requires forall i :: 0 <= i < |visited| ==> names'[m + i] == visited[i].item
    ensures Placed(names', m, NamesOf(visited)) && MentionOnly(c', l, l', NamesOf(visited))
  {
    hide VarsOf, Tied, IsClause, GroupItems, RepsOk;
    var items, g := NamesOf(visited), GroupItems(st, r);
    VisitedCount(st, r, visited);
    TiedPermuted(st, c, c');
    forall i, j | 0 <= i < j < |items| ensures items[i] != items[j] { DifferentItems(st, r, visited, i, j); }
    forall i, j | 0 <= i < m && 0 <= j < |items| ensures names'[i] != items[j] {
      assert names'[i] == names'[..m][i] == names[..m][i];
      assert items[j] in g;
    }
    forall i, x | l <= i < l' && x in VarsOf(c'[i]) ensures x in items {
      WholeInGroup(st, c', i, r);
      var j :| 0 <= j < |visited| && visited[j].item == x;
      assert items[j] == x;
    }
  }

  lemma DifferentItems(st: Shape, r: Element, visited: seq<Element>, i: nat, j: nat)
    requires GoodNames(st) && Lists(visited, Class(st.rep, r)) && i < j < |visited|
    ensures visited[i].item != visited[j].item
  {
    hide RepsOk;
    assert visited[i] in visited && visited[j] in visited;
  }

  lemma GroupIsDone(st: Shape, c: seq<seq<Unit>>, first: nat, last: nat, names: seq<VarId>, v: Matrix, gen: nat -> real, run: GroupRun, n: nat,
      visited: seq<Element>, r: Element, m: nat, d: nat, d': nat)
    requires GoodNames(st) && Lists(visited, Class(st.rep, r)) && run.items == NamesOf(visited)
    requires Placed(names, run.col, run.items) && MentionOnly(c, first, last, run.items)
    requires Tried(c, first, last, run, gen, n) && CellsDrawn(v, run, gen, n)
    requires run.col + |visited| == m && run.draw == d && d' == DrawAt(d, |visited|, run.tries[n])
    ensures GroupDone(c, first, last, names, v, gen, run, n) && Between(run, run.col, m, d, d') && RunOver(st, r, run)
  {
    hide GoodNames, GroupItems, Lists, DrawAt;
    VisitedCount(st, r, visited);
    forall x ensures x in run.items <==> x in GroupItems(st, r) {
      if i :| 0 <= i < |visited| && visited[i].item == x { assert run.items[i] == x; }
      if x in run.items { var i :| 0 <= i < |run.items| && run.items[i] == x; }
    }
  }

  /** What was done for earlier groups stays. */
  lemma GroupKept(c: seq<seq<Unit>>, c': seq<seq<Unit>>, first: nat, last: nat, l: nat, names: seq<VarId>, names': seq<VarId>,
      v: Matrix, v': Matrix, gen: nat -> real, run: GroupRun, n: nat, m: nat)
    requires GroupDone(c, first, last, names, v, gen, run, n) && last <= l <= |c| && l <= |c'| && c'[..l] == c[..l]
    requires ColEnd(run) <= m <= |names| && m <= |names'| && names'[..m] == names[..m] && FrontKept(v, v', m)
    ensures GroupDone(c', first, last, names', v', gen, run, n)
    ensures forall s :: GivenUp(c', first, last, run, gen, s) <==> GivenUp(c, first, last, run, gen, s)
  {
    assert forall i :: first <= i < last ==> c'[i] == c'[..l][i] == c[i];
    assert forall i :: 0 <= i < m ==> names'[i] == names'[..m][i] == names[i];
    hide DrawAt, TryHolds, Follows;
    forall j ensures TryHolds(c', first, last, run.items, gen, run.draw, j) <==> TryHolds(c, first, last, run.items, gen, run.draw, j) {
      TryKept(c, c', first, last, run.items, gen, run.draw, j);
    }
    forall s | 0 <= s < n ensures RowTried(c', first, last, run.items, gen, run.draw, run.tries[s], run.tries[s + 1]) {
      RowKept(c, c', first, last, run, gen, n, s);
    }
    hide RowTried;
    forall s | 0 <= s < n ensures RowDrawn(v', run.col, |run.items|, s, gen, DrawAt(run.draw, |run.items|, LastTry(run, s))) {
      FrontRowStays(v, v', run.col, |run.items|, s, m, gen, DrawAt(run.draw, |run.items|, LastTry(run, s)));
    }
  }

  lemma TryKept(c: seq<seq<Unit>>, c': seq<seq<Unit>>, first: nat, last: nat, items: seq<VarId>, gen: nat -> real, draw: nat, j: nat)
    requires last <= |c| && last <= |c'| && forall i :: first <= i < last ==> c'[i] == c[i]
    ensures TryHolds(c', first, last, items, gen, draw, j) <==> TryHolds(c, first, last, items, gen, draw, j)
  {
    TrySame(c, c', first, last, TryValues(items, gen, DrawAt(draw, |items|, j)));
  }

  lemma RowKept(c: seq<seq<Unit>>, c': seq<seq<Unit>>, first: nat, last: nat, run: GroupRun, gen: nat -> real, n: nat, s: nat)
    requires Tried(c, first, last, run, gen, n) && s < n
    requires forall j :: TryHolds(c', first, last, run.items, gen, run.draw, j) <==> TryHolds(c, first, last, run.items, gen, run.draw, j)
    ensures RowTried(c', first, last, run.items, gen, run.draw, run.tries[s], run.tries[s + 1])
  {
    hide TryHolds;
    assert RowTried(c, first, last, run.items, gen, run.draw, run.tries[s], run.tries[s + 1]);
  }

  lemma TrySame(c: seq<seq<Unit>>, c': seq<seq<Unit>>, first: nat, last: nat, e: VarId -> real)
    requires last <= |c| && last <= |c'| && forall i :: first <= i < last ==> c'[i] == c[i]
    ensures HoldAll(c', first, last, e) <==> HoldAll(c, first, last, e)
  {
    hide IsClause, Holds;
  }

  lemma NoRuns(st: Shape, c: seq<seq<Unit>>, names: seq<VarId>, v: Matrix, gen: nat -> real, n: nat, roots: seq<Element>)
    ensures AllRuns(c, [0], names, v, gen, [], n) && Chained([], 0, 0) && RunsOver(st, roots, []) && !SomeGivenUp(c, [0], [], gen, n)
  {
  }

  /** The run of the next group is added. */
  lemma RunsMore(c: seq<seq<Unit>>, c': seq<seq<Unit>>, bs: seq<nat>, names: seq<VarId>, names': seq<VarId>, v: Matrix, v': Matrix, gen: nat -> real,
      runs: seq<GroupRun>, run: GroupRun, n: nat, m: nat, m': nat, d: nat, d': nat, l: nat, l': nat)
    requires AllRuns(c, bs, names, v, gen, runs, n) && Chained(runs, m, d) && bs[|runs|] == l && (forall k :: 0 <= k < |bs| ==> bs[k] <= l)
    requires l <= |c| && l <= |c'| && c'[..l] == c[..l]
    requires m <= |names| && m <= |names'| && names'[..m] == names[..m] && FrontKept(v, v', m)
    requires GroupDone(c', l, l', names', v', gen, run, n) && Between(run, m, m', d, d')
    ensures AllRuns(c', bs + [l'], names', v', gen, runs + [run], n) && Chained(runs + [run], m', d')
    ensures SomeGivenUp(c', bs + [l'], runs + [run], gen, n) <==>
      SomeGivenUp(c, bs, runs, gen, n) || !NoneGivenUp(c', l, l', run, gen, n)
  {
    hide GroupDone, GivenUp, FrontKept, ColEnd, DrawEnd;
    var k0, bs', runs' := |runs|, bs + [l'], runs + [run];
    forall k | 0 <= k < k0 ensures GroupDone(c', bs'[k], bs'[k + 1], names', v', gen, runs'[k], n) {
      ColumnsBefore(runs, m, d, k);
      GroupKept(c, c', bs[k], bs[k + 1], l, names, names', v, v', gen, runs[k], n, m);
    }
    forall k, s | 0 <= k < k0 ensures GivenUpAt(c', bs', runs', gen, k, s) <==> GivenUpAt(c, bs, runs, gen, k, s) {
      ColumnsBefore(runs, m, d, k);
      GroupKept(c, c', bs[k], bs[k + 1], l, names, names', v, v', gen, runs[k], n, m);
    }
    assert forall s :: GivenUpAt(c', bs', runs', gen, k0, s) <==> GivenUp(c', l, l', run, gen, s);
    forall k | 0 <= k < k0 + 1 ensures Follows(runs', k) {
      if k < k0 { assert Follows(runs, k); }
    }
    if SomeGivenUp(c', bs', runs', gen, n) {
      var k, s :| 0 <= k < |runs'| && 0 <= s < n && GivenUpAt(c', bs', runs', gen, k, s);
      if k < k0 { assert GivenUpAt(c, bs, runs, gen, k, s); }
    }
    if SomeGivenUp(c, bs, runs, gen, n) {
      var k, s :| 0 <= k < |runs| && 0 <= s < n && GivenUpAt(c, bs, runs, gen, k, s);
      assert GivenUpAt(c', bs', runs', gen, k, s);
    }
    if !NoneGivenUp(c', l, l', run, gen, n) {
      var s :| 0 <= s < n && GivenUp(c', l, l', run, gen, s);
      assert GivenUpAt(c', bs', runs', gen, k0, s);
    }
  }

  lemma {:induction false} ColumnsBefore(runs: seq<GroupRun>, m: nat, d: nat, k: nat)
    requires Chained(runs, m, d) && k < |runs|
    ensures ColEnd(runs[k]) <= m
    decreases |runs| - k
  {
    hide DrawEnd;
    if k + 1 < |runs| {
      ColumnsBefore(runs, m, d, k + 1);
      assert Follows(runs, k + 1);
    }
  }

  lemma RunsOverMore(st: Shape, roots: seq<Element>, runs: seq<GroupRun>, run: GroupRun)
    requires RunsOver(st, roots, runs) && |runs| < |roots| && RunOver(st, roots[|runs|], run)
    ensures RunsOver(st, roots, runs + [run])
  {
    hide GroupItems;
  }

  lemma AllColumns(st: Shape, c: seq<seq<Unit>>, names: seq<VarId>, m: nat, l: nat, done: set<VarId>)
    requires Columns(st, c, names, m, l, done) && Items(st.elems) <= done && |names| == |Items(st.elems)|
    ensures m == |names|
  {
    assert done == Items(st.elems);
  }

  // ---------------------------------------------------------------- every cell is a draw of its own

  /** The run whose columns column i is among. */
  function RunAt(runs: seq<GroupRun>, i: nat): nat {
    if runs == [] then 0 else
      var n := |runs| - 1;
      if i >= runs[n].col then n else RunAt(runs[..n], i)
  }

  /** The number of the draw that a cell holds. */
  function CellDraw(run: GroupRun, i: nat, s: nat): nat {
    if s + 1 < |run.tries| && i >= run.col then DrawAt(run.draw, |run.items|, LastTry(run, s)) + (i - run.col) else 0
  }

  function DrawOf(runs: seq<GroupRun>, i: nat, s: nat): nat {
    var k := RunAt(runs, i);
    if k < |runs| then CellDraw(runs[k], i, s) else 0
  }

  lemma {:induction false} RunAtIs(runs: seq<GroupRun>, m: nat, d: nat, i: nat)
    requires Chained(runs, m, d) && i < m
    ensures var k := RunAt(runs, i); k < |runs| && runs[k].col <= i < ColEnd(runs[k])
    decreases |runs|
  {
    var n := |runs| - 1;
    if i < runs[n].col {
      ChainedFront(runs, m, d);
      RunAtIs(runs[..n], runs[n].col, runs[n].draw, i);
    }
  }

  lemma ChainedFront(runs: seq<GroupRun>, m: nat, d: nat)
    requires Chained(runs, m, d) && runs != []
    ensures Chained(runs[..|runs| - 1], runs[|runs| - 1].col, runs[|runs| - 1].draw)
  {
    hide ColEnd, DrawEnd;
    var n := |runs| - 1;
    assert Follows(runs, n);
    forall k | 0 <= k < n ensures Follows(runs[..n], k) { assert Follows(runs, k); }
  }

  lemma {:induction false} TriesGrow(c: seq<seq<Unit>>, first: nat, last: nat, run: GroupRun, gen: nat -> real, n: nat, s: nat, r: nat)
    requires Tried(c, first, last, run, gen, n) && s <= r <= n
    ensures run.tries[s] <= run.tries[r]
    decreases r
  {
    hide TryHolds;
    if s < r {
      TriesGrow(c, first, last, run, gen, n, s, r - 1);
      assert RowTried(c, first, last, run.items, gen, run.draw, run.tries[r - 1], run.tries[r - 1 + 1]);
    }
  }

  lemma {:induction false} DrawsOrdered(draw: nat, size: nat, j: nat, k: nat)
    requires j <= k
    ensures draw <= DrawAt(draw, size, j) <= DrawAt(draw, size, k)
    decreases k
  {
    if j < k {
      NextTry(draw, size, k - 1);
      DrawsOrdered(draw, size, j, k - 1);
    } else {
      assert j * size >= 0;
    }
  }

  /** A cell's draw lies between the draws made before its row and those made with it. */
  lemma CellWithin(c: seq<seq<Unit>>, first: nat, last: nat, run: GroupRun, gen: nat -> real, n: nat, i: nat, s: nat)
    requires Tried(c, first, last, run, gen, n) && s < n && run.col <= i < ColEnd(run)
    ensures DrawAt(run.draw, |run.items|, run.tries[s]) <= CellDraw(run, i, s) < DrawAt(run.draw, |run.items|, run.tries[s + 1])
    ensures run.draw <= CellDraw(run, i, s) < DrawEnd(run)
  {
    hide TryHolds, DrawAt;
    assert RowTried(c, first, last, run.items, gen, run.draw, run.tries[s], run.tries[s + 1]);
    var size, kept := |run.items|, run.tries[s + 1] - 1;
    DrawsOrdered(run.draw, size, run.tries[s], kept);
    NextTry(run.draw, size, kept);
    TriesGrow(c, first, last, run, gen, n, s + 1, n);
    DrawsOrdered(run.draw, size, run.tries[s + 1], run.tries[n]);
  }

  /** Draws of earlier groups come before those of later ones. */
  lemma {:induction false} DrawsBefore(c: seq<seq<Unit>>, bs: seq<nat>, names: seq<VarId>, v: Matrix, gen: nat -> real, runs: seq<GroupRun>, n: nat,
      m: nat, d: nat, j: nat, k: nat)
    requires AllRuns(c, bs, names, v, gen, runs, n) && Chained(runs, m, d) && j < k <= |runs|
    ensures DrawEnd(runs[j]) <= if k < |runs| then runs[k].draw else d
    decreases k
  {
    hide GroupDone, DrawEnd;
    if k < |runs| { assert Follows(runs, k); }
    if j + 1 < k {
      DrawsBefore(c, bs, names, v, gen, runs, n, m, d, j, k - 1);
      assert GroupDone(c, bs[k - 1], bs[k - 1 + 1], names, v, gen, runs[k - 1], n);
      RunGrows(c, bs[k - 1], bs[k - 1 + 1], names, v, gen, runs[k - 1], n);
    }
  }

  lemma RunGrows(c: seq<seq<Unit>>, first: nat, last: nat, names: seq<VarId>, v: Matrix, gen: nat -> real, run: GroupRun, n: nat)
    requires GroupDone(c, first, last, names, v, gen, run, n)
    ensures run.draw <= DrawEnd(run)
  {
    DrawsGrow(c, first, last, names, v, gen, run, n, run.col, ColEnd(run), run.draw, DrawEnd(run));
  }

  /** Each cell holds a draw, and no two hold the same one. */
  ghost predicate CellsAreDraws(v: Matrix, gen: nat -> real, n: nat, runs: seq<GroupRun>, d: nat) {
    && (forall i, s :: 0 <= i < |v| && 0 <= s < n ==>
          s < |v[i]| && DrawOf(runs, i, s) < d && v[i][s] == Some(gen(DrawOf(runs, i, s))))
    && (forall i, s, j, r :: 0 <= i < |v| && 0 <= s < n && 0 <= j < |v| && 0 <= r < n && (i != j || s != r) ==>
          DrawOf(runs, i, s) != DrawOf(runs, j, r))
  }

  lemma EveryCellOnce(c: seq<seq<Unit>>, bs: seq<nat>, names: seq<VarId>, v: Matrix, gen: nat -> real, runs: seq<GroupRun>, n: nat, d: nat)
    requires AllRuns(c, bs, names, v, gen, runs, n) && Chained(runs, |v|, d)
    ensures CellsAreDraws(v, gen, n, runs, d)
  {
    hide GroupDone, Chained, RunAt, CellDraw, DrawEnd, ColEnd;
    forall i, s | 0 <= i < |v| && 0 <= s < n
      ensures s < |v[i]| && DrawOf(runs, i, s) < d && v[i][s] == Some(gen(DrawOf(runs, i, s)))
    {
      CellHolds(c, bs, names, v, gen, runs, n, d, i, s);
    }
    forall i, s, j, r | 0 <= i < |v| && 0 <= s < n && 0 <= j < |v| && 0 <= r < n && (i != j || s != r)
      ensures DrawOf(runs, i, s) != DrawOf(runs, j, r)
    {
      var k, l := RunAt(runs, i), RunAt(runs, j);
      CellHolds(c, bs, names, v, gen, runs, n, d, i, s);
      CellHolds(c, bs, names, v, gen, runs, n, d, j, r);
      if k < l {
        DrawsBefore(c, bs, names, v, gen, runs, n, |v|, d, k, l);
      } else if l < k {
        DrawsBefore(c, bs, names, v, gen, runs, n, |v|, d, l, k);
      } else {
        assert GroupDone(c, bs[k], bs[k + 1], names, v, gen, runs[k], n);
        SameRunApart(c, bs[k], bs[k + 1], names, v, gen, runs[k], n, i, s, j, r);
      }
    }
  }

  lemma CellHolds(c: seq<seq<Unit>>, bs: seq<nat>, names: seq<VarId>, v: Matrix, gen: nat -> real, runs: seq<GroupRun>, n: nat, d: nat,
      i: nat, s: nat)
    requires AllRuns(c, bs, names, v, gen, runs, n) && Chained(runs, |v|, d) && i < |v| && s < n
    ensures var k := RunAt(runs, i);
      && k < |runs| && runs[k].col <= i < ColEnd(runs[k]) && DrawOf(runs, i, s) == CellDraw(runs[k], i, s)
      && runs[k].draw <= DrawOf(runs, i, s) < DrawEnd(runs[k]) && DrawOf(runs, i, s) < d
      && s < |v[i]| && v[i][s] == Some(gen(DrawOf(runs, i, s)))
  {
    hide Placed, Tried, Chained, RunAt, DrawEnd, DrawAt;
    RunAtIs(runs, |v|, d, i);
    var k := RunAt(runs, i);
    var run := runs[k];
    assert GroupDone(c, bs[k], bs[k + 1], names, v, gen, run, n);
    CellWithin(c, bs[k], bs[k + 1], run, gen, n, i, s);
    DrawsBefore(c, bs, names, v, gen, runs, n, |v|, d, k, |runs|);
    assert RowDrawn(v, run.col, |run.items|, s, gen, DrawAt(run.draw, |run.items|, LastTry(run, s)));
  }

  lemma SameRunApart(c: seq<seq<Unit>>, first: nat, last: nat, names: seq<VarId>, v: Matrix, gen: nat -> real, run: GroupRun, n: nat,
      i: nat, s: nat, j: nat, r: nat)
    requires GroupDone(c, first, last, names, v, gen, run, n) && s < n && r < n && (i != j || s != r)
    requires run.col <= i < ColEnd(run) && run.col <= j < ColEnd(run)
    ensures CellDraw(run, i, s) != CellDraw(run, j, r)
  {
    hide Placed, CellsDrawn, DrawAt, RowTried, ColEnd, DrawEnd;
    CellWithin(c, first, last, run, gen, n, i, s);
    CellWithin(c, first, last, run, gen, n, j, r);
    if s < r {
      TriesGrow(c, first, last, run, gen, n, s + 1, r);
      DrawsOrdered(run.draw, |run.items|, run.tries[s + 1], run.tries[r]);
    } else if r < s {
      TriesGrow(c, first, last, run, gen, n, r + 1, s);
      DrawsOrdered(run.draw, |run.items|, run.tries[r + 1], run.tries[s]);
    }
  }

  lemma DoneMore(st: Shape, roots: seq<Element>, k: nat)
    requires k < |roots|
    ensures DoneItems(st, roots, k + 1) == DoneItems(st, roots, k) + GroupItems(st, roots[k])
  {
  }

  lemma RootsCover(cs: ConnectedSet, roots: seq<Element>)
    requires cs.Valid()
    requires forall x :: x in roots <==> x in cs.st.elems && x.groupRoot == null
    ensures forall r :: r in roots ==> r in cs.st.elems && r in cs.st.rep && cs.st.rep[r] == r
    ensures forall e :: e in cs.st.elems ==> e in cs.st.rep && cs.st.rep[e] in roots
    ensures cs.size == |Items(cs.st.elems)| && GoodNames(cs.st)
  {
    hide *;
    cs.ValidParts();
    forall r | r in roots ensures r in cs.st.elems && r in cs.st.rep && cs.st.rep[r] == r { cs.RootSize(r); }
    forall e | e in cs.st.elems ensures e in cs.st.rep && cs.st.rep[e] in roots { cs.NodeHere(e); }
    SizeIsItems(cs);
  }

  lemma SizeIsItems(cs: ConnectedSet)
    requires cs.ValidSort() && GoodNames(cs.st)
    ensures cs.size == |Items(cs.st.elems)|
  {
    hide RepsOk;
    ItemCount(cs.st.elems);
  }

  /** pip_sample_by_clause with CDF sampling off; capped tells whether some row was given up after so many draws. */
  method SampleByClause(clause: array<seq<Unit>>, sampleCnt: int, gen: nat -> real, fallback: nat -> VarId -> real, garbage: nat -> VarId)
    returns (samples: SampleSet?, capped: bool, drawn: nat, ghost st: Shape, ghost roots: seq<Element>, ghost bs: seq<nat>, ghost runs: seq<GroupRun>)
    requires AllClauses(clause[..])
    modifies clause
    ensures samples == null <==> sampleCnt <= 0
    ensures capped ==> drawn >= CAP
    ensures samples != null ==> samples.Valid() && samples.sampleCnt == sampleCnt
    ensures samples != null ==>
      AllRuns(clause[..], bs, samples.names[..], samples.Cells(), gen, runs, sampleCnt) && Chained(runs, samples.names.Length, drawn)
    ensures samples != null ==> CellsAreDraws(samples.Cells(), gen, sampleCnt, runs, drawn)
    ensures samples != null ==> |runs| == |roots| && RunsOver(st, roots, runs) && (capped <==> SomeGivenUp(clause[..], bs, runs, gen, sampleCnt))
    ensures samples != null ==> Grouped(old(clause[..]), clause[..], st, roots, bs)
    ensures samples != null && !capped ==> AllClauses(clause[..]) && AllSatisfied(clause[..], samples, fallback)
  {
    hide Tied, Columns, RowsDone, Segments, AllClauses, IsClause, VarsOf, ConnectedSet.Valid, DoneItems, GroupItems, Items;
    hide Distinct, GroupsOfClause, GoodNames, AllSatisfied, Grouped;
    hide AllRuns, Chained, RunsOver, SomeGivenUp, CellsAreDraws;
    capped, drawn, st, roots, bs, runs := false, 0, EmptyShape, [], [0], [];
    if sampleCnt <= 0 { return null, capped, drawn, st, roots, bs, runs; }
    ghost var c0 := clause[..];
    var varset := ClauseToCset(clause[..]);
    st := varset.st;
    ClauseTied(st, c0);
    varset.Lock();
    var all := varset.IterateRoots();
    roots := all;
    RootsCover(varset, roots);
    samples := new SampleSet(sampleCnt, varset.size, garbage);
    var state := new Sampler(samples, clause, gen, fallback);
    capped, bs, runs := SampleGroups(varset, state, all);
    drawn := state.drawn;
    AllGroupsDone(st, roots);
    Finish(c0, clause[..], st, roots, bs, samples, state.lastVar, fallback, capped);
    AllColumns(st, clause[..], samples.names[..], state.lastVar, state.lastAtom, DoneItems(st, roots, |roots|));
    EveryCellOnce(clause[..], bs, samples.names[..], samples.Cells(), gen, runs, sampleCnt, drawn);
  }

  lemma TiedInside(st: Shape, c: seq<seq<Unit>>, i: nat)
    requires Tied(st, c) && i < |c|
    ensures VarsOf(c[i]) <= Items(st.elems)
  {
    hide VarsOf, Connected, Items;
  }

  lemma Finish(c0: seq<seq<Unit>>, c: seq<seq<Unit>>, st: Shape, roots: seq<Element>, bs: seq<nat>, samples: SampleSet, m: nat,
      fallback: nat -> VarId -> real, capped: bool)
    requires samples.Valid() && samples.names.Length == |Items(st.elems)| && multiset(c) == multiset(c0)
    requires GroupsOfClause(st, c0) && GoodNames(st) && Segments(c, st, roots, |roots|, bs) && Tied(st, c)
    requires forall e :: e in st.elems ==> e in st.rep && st.rep[e] in roots
    requires Items(st.elems) <= DoneItems(st, roots, |roots|)
    requires Columns(st, c, samples.names[..], m, bs[|roots|], DoneItems(st, roots, |roots|))
    requires !capped ==> RowsDone(c, samples.names[..], samples.Cells(), m, bs[|roots|], samples.sampleCnt, fallback)
    ensures Grouped(c0, c, st, roots, bs)
    ensures !capped ==> AllClauses(c) && AllSatisfied(c, samples, fallback)
  {
    hide GroupsOfClause, GoodNames, VarsOf, RowsDone, AllSatisfied, DoneItems, Connected, Items;
    var done, l := DoneItems(st, roots, |roots|), bs[|roots|];
    forall i | l <= i < |c| ensures VarsOf(c[i]) == {} {
      TiedInside(st, c, i);
      assert VarsOf(c[i]) * done == VarsOf(c[i]);
    }
    if !capped { WholeRows(c, samples, l, done, st, fallback); }
  }
}
