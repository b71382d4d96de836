/** Values in use: the command line of a parse may stand in the value of an alias that it
    has expanded (a value of one word is handed out as it is), so that value must not be
    freed while the parse is in progress. */
module AliasInUse {
  import opened Wrappers
  import opened AliasModel
  import opened AliasProofs
  import opened AliasPending

  /** Parse number `l` has expanded entry `i`. */
  predicate InUse(t: Table, i: nat, l: nat) {
    i < |t.atab| && l < |t.lists| && i in t.lists[l] && t.atab[i].exp
  }

  /** `op` frees the value of entry `i`: alias_save before it stores another one, or when it
      cleans up; alias_delete unless the entry is being expanded. */
  predicate FreesValue(t: Table, op: Op, i: nat)
    requires Queued(t) && i < |t.atab|
  {
    var s := Init(t);
    match op
    case SetAlias(name, _, nameOk, valueOk) =>
      name != ""
      && (match Find(s.atab, s.alist, name)
          case Some(j) => i == j
          case None => s.afree != [] && s.afree[0] == i && !(nameOk && valueOk))
    case Unalias(name) => Find(s.atab, s.alist, name) == Some(i) && !s.atab[i].exp
    case UnaliasAll => i in s.alist && !s.atab[i].exp
    case Begin | ExpandToken(_) => false
    case End => s.lists != [] && i in s.lists[|s.lists| - 1] && s.atab[i].rem
  }

  ghost predicate FreedDuring(t: Table, ops: seq<Op>, i: nat)
    decreases |ops|
  {
    ops != [] && Queued(t) && i < |t.atab|
    && (FreesValue(t, ops[0], i) || FreedDuring(Step(t, ops[0]), ops[1..], i))
  }

  predicate Saves(op: Op, name: Option<string>) {
    op.SetAlias? && name == Some(op.name)
  }

  predicate SavedDuring(ops: seq<Op>, name: Option<string>) {
    exists k :: 0 <= k < |ops| && Saves(ops[k], name)
  }

  /** Entry `i` is in use in `u` as in `t`, under the same name; and if `kept`, with the
      same value. */
  predicate StillInUse(t: Table, u: Table, i: nat, l: nat, kept: bool) {
    && InUse(t, i, l) && InUse(u, i, l)
    && u.atab[i].name == t.atab[i].name && (kept ==> u.atab[i].value == t.atab[i].value)
  }

  /** What the invariant says about an entry in use. */
  lemma UsedEntry(t: Table, i: nat, l: nat)
    requires Inv(t) && InUse(t, i, l)
    ensures Partition(t) && Init(t) == t && i in t.alist && i !in t.afree
    ensures t.atab[i].name.Some? && t.atab[i].name.value != ""
  {
    assert t.atab[i] != BLANK;
    assert Partition(t);
    InitKeeps(t);
    assert i in t.alist + t.afree;
  }

  lemma UsedName(t: Table, i: nat, l: nat, name: string)
    requires Inv(t) && InUse(t, i, l)
    ensures Find(t.atab, t.alist, name) == Some(i) <==> t.atab[i].name == Some(name)
  {
    UsedEntry(t, i, l);
  }

  lemma UsedDelete(t: Table, i: nat, l: nat, j: nat)
    requires InUse(t, i, l) && j < |t.atab|
    ensures StillInUse(t, Delete(t, j), i, l, true) && Delete(t, j).lists == t.lists
  {
  }

  lemma UsedTrans(t: Table, m: Table, u: Table, i: nat, l: nat)
    requires StillInUse(t, m, i, l, true) && StillInUse(m, u, i, l, true)
    ensures StillInUse(t, u, i, l, true)
  {
  }

  lemma {:induction false} UsedDeleteAll(t: Table, i: nat, l: nat, q: seq<nat>)
    requires InUse(t, i, l) && Below(q, |t.atab|)
    ensures StillInUse(t, DeleteAll(t, q), i, l, true) && DeleteAll(t, q).lists == t.lists
    decreases |q|
  {
    if q != [] {
      DeleteBelow(t, q);
      UsedDelete(t, i, l, q[0]);
      hide Delete;
      UsedDeleteAll(Delete(t, q[0]), i, l, q[1..]);
      UsedTrans(t, Delete(t, q[0]), DeleteAll(t, q), i, l);
    }
  }

  lemma UsedSave(t: Table, i: nat, l: nat, name: string, value: string, nameOk: bool, valueOk: bool)
    requires Inv(t) && InUse(t, i, l)
    ensures var u := Save(t, name, value, nameOk, valueOk).0;
      StillInUse(t, u, i, l, t.atab[i].name != Some(name)) && u.lists == t.lists
  {
    UsedEntry(t, i, l);
    UsedName(t, i, l, name);
    hide Inv, Partition, Find;
    if name != "" {
      match Find(t.atab, t.alist, name)
      case Some(j) =>
        assert j < |t.atab|;
        UsedDelete(t.(atab := t.atab[j := t.atab[j].(value := None)]), i, l, j);
      case None =>
        if t.afree != [] {
          UsedDelete(Appended(t, name, value, nameOk, valueOk), i, l, t.afree[0]);
        }
    }
  }

  lemma UsedExpand(t: Table, i: nat, l: nat, token: string)
    requires Queued(t) && InUse(t, i, l)
    ensures StillInUse(t, Expand(t, token), i, l, true) && |Expand(t, token).lists| == |t.lists|
  {
  }

  lemma UsedEnd(t: Table, i: nat, l: nat)
    requires Inv(t) && InUse(t, i, l) && l < |t.lists| - 1
    ensures i !in t.lists[|t.lists| - 1]
    ensures StillInUse(t, EndParse(t), i, l, true) && |EndParse(t).lists| == |t.lists| - 1
  {
    hide EndParse, Untouched, Partition, Entries, Marks;
    NotInLast(t, i, l);
    EndFrees(t, i);
  }

  /** One operation while the parse goes on: it frees the value of an entry in use exactly
      when it saves that name, and changes the value in no other case. */
  lemma UsedStep(t: Table, op: Op, i: nat, l: nat)
    requires Inv(t) && InUse(t, i, l) && l < Nesting(|t.lists|, op)
    ensures FreesValue(t, op, i) <==> Saves(op, t.atab[i].name)
    ensures StillInUse(t, Step(t, op), i, l, !Saves(op, t.atab[i].name))
    ensures |Step(t, op).lists| == Nesting(|t.lists|, op)
  {
    hide Save, Delete, DeleteAll, Expand, EndParse, Untouched, Partition, Entries, Marks, Find;
    UsedEntry(t, i, l);
    match op
    case SetAlias(name, value, nameOk, valueOk) =>
      UsedName(t, i, l, name);
      UsedSave(t, i, l, name, value, nameOk, valueOk);
      assert t.afree != [] ==> t.afree[0] in t.afree;
    case Unalias(name) =>
      var r := Find(t.atab, t.alist, name);
      if r.Some? {
        assert r.value < |t.atab|;
        UsedDelete(t, i, l, r.value);
      }
    case UnaliasAll => UsedDeleteAll(t, i, l, t.alist);
    case Begin =>
    case ExpandToken(token) => UsedExpand(t, i, l, token);
    case End => UsedEnd(t, i, l);
  }

  /** While the parse that expanded an alias is in progress, whatever is done meanwhile, the
      alias keeps its name, and its value is freed exactly when some operation saves that
      name.  (Removing it only marks it.) */
  lemma {:induction false} ValueKeptIff(t: Table, ops: seq<Op>, u: Table, i: nat, l: nat)
    requires Inv(t) && InUse(t, i, l) && Runs(t, ops, u) && Inside(|t.lists|, ops, l)
    ensures FreedDuring(t, ops, i) <==> SavedDuring(ops, t.atab[i].name)
    ensures StillInUse(t, u, i, l, !FreedDuring(t, ops, i))
    decreases |ops|
  {
    hide Untouched, Partition, Entries, Marks, Step, InUse, FreesValue, Saves;
    if ops != [] {
      var m := Step(t, ops[0]);
      assert i < |t.atab| by { InUseBelow(t, i, l); }
      UsedStep(t, ops[0], i, l);
      StepKeeps(t, ops[0]);
      ValueKeptIff(m, ops[1..], u, i, l);
      SavedStep(ops, t.atab[i].name);
    }
  }

  lemma InUseBelow(t: Table, i: nat, l: nat)
    requires InUse(t, i, l)
    ensures i < |t.atab|
  {
  }

  lemma SavedStep(ops: seq<Op>, name: Option<string>)
    requires ops != []
    ensures SavedDuring(ops, name) <==> Saves(ops[0], name) || SavedDuring(ops[1..], name)
  {
    if SavedDuring(ops[1..], name) {
      var k :| 0 <= k < |ops| - 1 && Saves(ops[1..][k], name);
      assert Saves(ops[k + 1], name);
    }
    if SavedDuring(ops, name) && !Saves(ops[0], name) {
      var k :| 0 <= k < |ops| && Saves(ops[k], name);
      assert Saves(ops[1..][k - 1], name);
    }
  }

  /** One input: `u` stands for `source`, the line `u f` is being parsed, and the first line
      of `f` saves `u`: the value that line stands in is freed. */
  lemma SavedWhileInUse(n: nat, x: string) returns (m: Table)
    requires n > 0
    ensures Runs(BlankTable(n), [SetAlias("u", "source", true, true)] + ([Begin] + ([ExpandToken("u")] + [Begin])), m)
    ensures Queued(m) && InUse(m, 0, 0) && m.atab[0].value == Some("source")
    ensures FreesValue(m, SetAlias("u", x, true, true), 0)
  {
    var a := Alias(Some("u"), Some("source"), false, false);
    var b := a.(exp := true);
    BeginLists();
    m := OneAlias(n, b, [[0], []]);
    FindOne(n, b, [[0], []], "u");
    hide Step, Find, Init;
    QueuedOne(n, b, [[0], []]);
    QueuedOne(n, b, [[0]]);
    QueuedOne(n, a, []);
    SetFirst(n, "u", "source");
    ExpandOne(n, a, "u");
    BeginOne(n, a, []);
    BeginOne(n, b, [[0]]);
    hide OneAlias, BlankTable, Queued, Runs, InUse;
    RunsNothing(m);
    RunsStep(OneAlias(n, b, [[0]]), Begin, [], m);
    assert [Begin] + [] == [Begin];
    RunsStep(OneAlias(n, a, [[]]), ExpandToken("u"), [Begin], m);
    RunsStep(OneAlias(n, a, []), Begin, [ExpandToken("u")] + [Begin], m);
    RunsStep(BlankTable(n), SetAlias("u", "source", true, true), [Begin] + ([ExpandToken("u")] + [Begin]), m);
  }
}
