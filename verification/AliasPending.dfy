/** Deferred removal: an alias that is removed while it is being expanded stays until the
    parse that expanded it ends, whatever happens to it in between. */
module AliasPending {
  import opened Wrappers
  import opened Sequences
  import opened AliasModel
  import opened AliasProofs

  /** Entry `i` is marked for removal, and the parse that expanded it is number `l`. */
  predicate Pending(t: Table, i: nat, l: nat) {
    i < |t.atab| && l < |t.lists| && i in t.lists[l] && t.atab[i].rem
  }

  /** How deeply parses are nested after `op`. */
  function Nesting(depth: nat, op: Op): nat {
    match op
    case Begin => depth + 1
    case End => if depth == 0 then 0 else depth - 1
    case _ => depth
  }

  /** Parse number `l` is in progress all along. */
  predicate Inside(depth: nat, ops: seq<Op>, l: nat)
    decreases |ops|
  {
    depth > l && (ops == [] || Inside(Nesting(depth, ops[0]), ops[1..], l))
  }

  lemma InFlat(ls: seq<seq<nat>>, l: nat, i: nat)
    requires l < |ls| && i in ls[l]
    ensures i in Flat(ls)
    decreases |ls|
  {
    if l < |ls| - 1 {
      InFlat(ls[..|ls| - 1], l, i);
    }
  }

  lemma PendingMarked(t: Table, i: nat, l: nat)
    requires Inv(t) && Pending(t, i, l)
    ensures t.atab[i].exp && i !in t.afree && t.atab[i] != BLANK
  {
    InFlat(t.lists, l, i);
  }

  lemma PendingDelete(t: Table, i: nat, l: nat, j: nat)
    requires Pending(t, i, l) && t.atab[i].exp && j < |t.atab|
    ensures Pending(Delete(t, j), i, l) && Delete(t, j).atab[i].exp && Delete(t, j).lists == t.lists
  {
  }

  lemma DeleteBelow(t: Table, q: seq<nat>)
    requires Below(q, |t.atab|) && q != []
    ensures Below(q[1..], |Delete(t, q[0]).atab|)
  {
  }

  lemma {:induction false} PendingDeleteAll(t: Table, i: nat, l: nat, q: seq<nat>)
    requires Pending(t, i, l) && t.atab[i].exp && Below(q, |t.atab|)
    ensures Pending(DeleteAll(t, q), i, l) && DeleteAll(t, q).lists == t.lists
    decreases |q|
  {
    hide Pending, Delete;
    if q != [] {
      DeleteBelow(t, q);
      PendingDelete(t, i, l, q[0]);
      PendingDeleteAll(Delete(t, q[0]), i, l, q[1..]);
    }
  }

  lemma PendingSave(t: Table, i: nat, l: nat, name: string, value: string, nameOk: bool, valueOk: bool)
    requires Inv(t) && Partition(t) && Pending(t, i, l)
    ensures var u := Save(t, name, value, nameOk, valueOk).0;
      Pending(u, i, l) && u.lists == t.lists
  {
    PendingMarked(t, i, l);
    hide Inv, Partition;
    if name != "" {
      match Find(t.atab, t.alist, name)
      case Some(j) =>
        PendingDelete(t.(atab := t.atab[j := t.atab[j].(value := None)]), i, l, j);
      case None =>
        if t.afree != [] {
          PendingDelete(Appended(t, name, value, nameOk, valueOk), i, l, t.afree[0]);
        }
    }
  }

  lemma PendingExpand(t: Table, i: nat, l: nat, token: string)
    requires Queued(t) && Pending(t, i, l)
    ensures Pending(Expand(t, token), i, l) && |Expand(t, token).lists| == |t.lists|
  {
  }

  lemma PendingEnd(t: Table, i: nat, l: nat)
    requires Inv(t) && Pending(t, i, l) && l < |t.lists| - 1
    ensures Pending(EndParse(t), i, l) && |EndParse(t).lists| == |t.lists| - 1
  {
    hide EndParse, Untouched, Partition, Entries, Marks;
    NotInLast(t, i, l);
    EndFrees(t, i);
  }

  lemma NotInBoth(a: seq<nat>, b: seq<nat>, i: nat)
    requires NoDup(a + b) && i in a
    ensures i !in b
  {
    var k :| 0 <= k < |a| && a[k] == i;
    forall j | 0 <= j < |b|
      ensures b[j] != i
    {
      assert (a + b)[k] == i && (a + b)[|a| + j] == b[j];
    }
  }

  lemma PendingStep(t: Table, op: Op, i: nat, l: nat)
    requires Inv(t) && Pending(t, i, l) && l < Nesting(|t.lists|, op)
    ensures Pending(Step(t, op), i, l) && |Step(t, op).lists| == Nesting(|t.lists|, op)
  {
    hide Save, Delete, DeleteAll, Expand, EndParse, Inv, Partition;
    PendingMarked(t, i, l);
    PendingSetUp(t, i, l);
    match op
    case SetAlias(name, value, nameOk, valueOk) => PendingSave(t, i, l, name, value, nameOk, valueOk);
    case Unalias(name) =>
      var r := Find(t.atab, t.alist, name);
      if r.Some? {
        PendingDelete(t, i, l, r.value);
      }
    case UnaliasAll => PendingDeleteAll(t, i, l, t.alist);
    case Begin =>
    case ExpandToken(token) => PendingExpand(t, i, l, token);
    case End => PendingEnd(t, i, l);
  }

  lemma PendingSetUp(t: Table, i: nat, l: nat)
    requires Inv(t) && Pending(t, i, l)
    ensures Init(t) == t && Partition(t) && Queued(t)
  {
    PendingMarked(t, i, l);
    InitKeeps(t);
  }

  /** Entry `i` has left the table. */
  predicate Gone(t: Table, i: nat) {
    i < |t.atab| && i !in t.alist && t.atab[i] == BLANK
  }

  /** Whatever is done while the parse that expanded an alias is still in progress, be it
      saving the alias again, an alias whose removal is pending is gone when that parse
      ends. */
  lemma {:induction false} PendingIsLost(t: Table, ops: seq<Op>, u: Table, i: nat, l: nat)
    requires Inv(t) && Pending(t, i, l) && Runs(t, ops, u) && Inside(|t.lists|, ops, l)
    ensures Inv(u) && Pending(u, i, l)
    ensures |u.lists| == l + 1 ==> Gone(EndParse(u), i)
    decreases |ops|
  {
    hide Untouched, Partition, Entries, Marks, Pending, Step, EndParse, Gone;
    if ops != [] {
      PendingStep(t, ops[0], i, l);
      StepKeeps(t, ops[0]);
      PendingIsLost(Step(t, ops[0]), ops[1..], u, i, l);
    } else if |u.lists| == l + 1 {
      EndFreesPending(u, i, l);
    }
  }

  lemma EndFreesPending(t: Table, i: nat, l: nat)
    requires Inv(t) && Pending(t, i, l) && |t.lists| == l + 1
    ensures Gone(EndParse(t), i)
  {
    hide EndParse;
    EndFrees(t, i);
  }

  /** The ends of the `n` innermost parses. */
  function EndParses(t: Table, n: nat): Table
    requires Inv(t) && n <= |t.lists|
    decreases n
  {
    if n == 0 then t
    else
      EndKeeps(t);
      EndCount(t);
      EndParses(EndParse(t), n - 1)
  }

  lemma EndCount(t: Table)
    requires Inv(t) && t.lists != []
    ensures EndParse(t).lists == t.lists[..|t.lists| - 1] && |EndParse(t).atab| == |t.atab|
  {
    EndFrees(t, 0);
  }

  lemma {:induction false} EndsFree(t: Table, i: nat, l: nat)
    requires Inv(t) && i < |t.atab| && l < |t.lists| && i in t.lists[l] && i in t.alist
    ensures i in EndParses(t, |t.lists| - l).alist <==> !t.atab[i].rem
    decreases |t.lists|
  {
    hide EndParse, Untouched, Partition, Entries, Marks;
    var last := |t.lists| - 1;
    EndCount(t);
    EndKeeps(t);
    EndFrees(t, i);
    if l < last {
      NotInLast(t, i, l);
      EndsFree(EndParse(t), i, l);
    } else {
      assert EndParses(t, 1) == EndParses(EndParse(t), 0);
    }
  }

  lemma NotInLast(t: Table, i: nat, l: nat)
    requires Inv(t) && l < |t.lists| - 1 && i in t.lists[l]
    ensures i !in t.lists[|t.lists| - 1]
  {
    var last := |t.lists| - 1;
    InFlat(t.lists[..last], l, i);
    FlatUpdate(t.lists, []);
    NotInBoth(Flat(t.lists[..last]), t.lists[last], i);
  }

  lemma SaveMarks(t: Table, name: string, value: string, nameOk: bool, p: nat)
    requires Inv(t) && name != "" && p < |t.alist| && t.atab[t.alist[p]].name == Some(name)
    ensures var u := Save(t, name, value, nameOk, true).0;
      |u.atab| == |t.atab| && u.atab[t.alist[p]].rem == t.atab[t.alist[p]].rem
  {
    FindAt(t, name, p);
  }

  /** An alias saved while its removal is pending is lost: after a successful save of an
      entry that some parse in progress has expanded, the entry survives the end of that
      parse exactly when it was not marked for removal. */
  lemma SavedSurvives(t: Table, name: string, value: string, nameOk: bool, p: nat, l: nat)
    requires Inv(t) && Partition(t) && name != "" && l < |t.lists|
    requires p < |t.alist| && t.atab[t.alist[p]].name == Some(name) && t.alist[p] in t.lists[l]
    ensures var (u, r) := Save(t, name, value, nameOk, true);
      && r == Ok && Inv(u) && u.lists == t.lists
      && (t.alist[p] in EndParses(u, |t.lists| - l).alist <==> !t.atab[t.alist[p]].rem)
  {
    hide Untouched, Partition, Entries, Marks, EndParses, Save;
    SaveUpdates(t, name, value, nameOk, p);
    SaveMarks(t, name, value, nameOk, p);
    SaveKeeps(t, name, value, nameOk, true);
    var u := Save(t, name, value, nameOk, true).0;
    EndsFree(u, t.alist[p], l);
  }

  lemma RunsStep(t: Table, op: Op, ops: seq<Op>, u: Table)
    requires Queued(t) && Runs(Step(t, op), ops, u)
    ensures Runs(t, [op] + ops, u)
  {
    hide Step, Queued;
    assert ([op] + ops)[1..] == ops;
  }

  lemma RunsNothing(t: Table)
    ensures Runs(t, [], t)
  {
  }

  /** A table whose one alias `a` is entry 0. */
  function OneAlias(n: nat, a: Alias, lists: seq<seq<nat>>): Table
    requires n > 0
  {
    Table(BlankTable(n).atab[0 := a], [0], Ids(n)[1..], lists)
  }

  lemma FindOne(n: nat, a: Alias, lists: seq<seq<nat>>, name: string)
    requires n > 0 && a.name == Some(name)
    ensures var t := OneAlias(n, a, lists);
      Init(t) == t && Below(t.alist, |t.atab|) && Find(t.atab, t.alist, name) == Some(0)
  {
  }

  lemma QueuedOne(n: nat, a: Alias, lists: seq<seq<nat>>)
    requires n > 0 && forall l :: 0 <= l < |lists| ==> lists[l] == [] || lists[l] == [0]
    ensures Queued(OneAlias(n, a, lists))
  {
  }

  lemma SetFirst(n: nat, name: string, value: string)
    requires n > 0 && name != ""
    ensures Queued(BlankTable(n))
    ensures Step(BlankTable(n), SetAlias(name, value, true, true))
      == OneAlias(n, Alias(Some(name), Some(value), false, false), [])
  {
    var t := Init(BlankTable(n));
    assert t.afree[0] == 0 && Find(t.atab, t.alist, name) == None;
  }

  lemma SetAgain(n: nat, a: Alias, lists: seq<seq<nat>>, name: string, value: string)
    requires n > 0 && name != "" && a.name == Some(name) && Queued(OneAlias(n, a, lists))
    ensures Save(OneAlias(n, a, lists), name, value, true, true) == (OneAlias(n, a.(value := Some(value)), lists), Ok)
  {
    FindOne(n, a, lists, name);
    ChangedOne(n, a, a.(value := Some(value)));
  }

  lemma ChangedOne(n: nat, a: Alias, b: Alias)
    requires n > 0
    ensures OneAlias(n, a, []).atab[0 := b] == OneAlias(n, b, []).atab
    ensures OneAlias(n, a, []).atab[0] == a
  {
    var blank := BlankTable(n).atab;
    assert blank[0 := a][0 := b] == blank[0 := b];
  }

  lemma ExpandOne(n: nat, a: Alias, name: string)
    requires n > 0 && a.name == Some(name) && a.value.Some? && !a.exp
    ensures Queued(OneAlias(n, a, [[]]))
    ensures Step(OneAlias(n, a, [[]]), ExpandToken(name)) == OneAlias(n, a.(exp := true), [[0]])
  {
    FindOne(n, a, [[]], name);
    var t := OneAlias(n, a, [[]]);
    assert AliasFind(t, name) == Some(0);
    ChangedOne(n, a, a.(exp := true));
    assert t.lists[0] + [0] == [0];
    assert t.lists[0 := [0]] == [[0]];
  }

  lemma UnaliasOne(n: nat, a: Alias, lists: seq<seq<nat>>, name: string)
    requires n > 0 && a.name == Some(name) && a.exp && Queued(OneAlias(n, a, lists))
    ensures Step(OneAlias(n, a, lists), Unalias(name)) == OneAlias(n, a.(rem := true), lists)
  {
    FindOne(n, a, lists, name);
    ChangedOne(n, a, a.(rem := true));
  }

  lemma EndEmpty(n: nat, a: Alias, lists: seq<seq<nat>>)
    requires n > 0 && Queued(OneAlias(n, a, lists + [[]]))
    ensures Step(OneAlias(n, a, lists + [[]]), End) == OneAlias(n, a, lists)
  {
    assert (lists + [[]])[..|lists|] == lists;
  }

  lemma EndLast(n: nat, a: Alias)
    requires n > 0 && a.exp && a.rem && Queued(OneAlias(n, a, [[0]]))
    ensures var v := Step(OneAlias(n, a, [[0]]), End); v.alist == []
  {
    var t := OneAlias(n, a, [[0]]);
    FreeOneQueued(t);
    var u := FreeOne(t);
    assert Remove([0], 0) == [];
    assert u.alist == [] && u.lists == [[]];
    assert EndParse(t) == EndParse(u);
  }

  /** The way it happens.  The alias `u` stands for `source f`, and `f` removes it and
      defines it again.  Each line of `f` is a parse of its own, inside the one that
      expanded `u`.  The second definition is reported as saved, and when that parse has
      ended there is no alias at all. */
  lemma SourcedRedefinition(n: nat, sourceF: string, x: string) returns (m: Table, v: Table)
    requires n > 0
    ensures var line := [SetAlias("u", sourceF, true, true)] + ([Begin] + [ExpandToken("u")]);
      var firstOfF := [Begin] + ([Unalias("u")] + ([End] + [Begin]));
      Runs(BlankTable(n), line + firstOfF, m)
    ensures Queued(m) && Init(m) == m && Save(m, "u", x, true, true).1 == Ok
    ensures Runs(Save(m, "u", x, true, true).0, [End, End], v) && v.alist == []
  {
    hide Step, Save, Init, Queued, Runs, OneAlias, BlankTable;
    var a := Alias(Some("u"), Some(sourceF), false, false);
    var b := a.(exp := true);
    var c := b.(rem := true);
    var d := c.(value := Some(x));
    BeginLists();
    QueuedOne(n, d, [[0]]);
    m, v := OneAlias(n, c, [[0], []]), Step(OneAlias(n, d, [[0]]), End);
    QueuedOne(n, c, [[0]]);
    QueuedOne(n, c, [[0], []]);
    QueuedOne(n, d, [[0], []]);
    QueuedOne(n, b, [[0]]);
    QueuedOne(n, b, [[0], []]);
    QueuedOne(n, a, []);
    // Up to the second line of f.
    SetFirst(n, "u", sourceF);
    ExpandOne(n, a, "u");
    UnaliasOne(n, b, [[0], []], "u");
    EndEmpty(n, c, [[0]]);
    BeginOne(n, a, []);
    BeginOne(n, b, [[0]]);
    BeginOne(n, c, [[0]]);
    RunsNothing(m);
    RunsStep(OneAlias(n, c, [[0]]), Begin, [], m);
    assert [Begin] + [] == [Begin];
    RunsStep(OneAlias(n, c, [[0], []]), End, [Begin], m);
    RunsStep(OneAlias(n, b, [[0], []]), Unalias("u"), [End] + [Begin], m);
    RunsStep(OneAlias(n, b, [[0]]), Begin, [Unalias("u")] + ([End] + [Begin]), m);
    var firstOfF := [Begin] + ([Unalias("u")] + ([End] + [Begin]));
    RunsStep(OneAlias(n, a, [[]]), ExpandToken("u"), firstOfF, m);
    RunsStep(OneAlias(n, a, []), Begin, [ExpandToken("u")] + firstOfF, m);
    RunsStep(BlankTable(n), SetAlias("u", sourceF, true, true), [Begin] + ([ExpandToken("u")] + firstOfF), m);
    var line := [SetAlias("u", sourceF, true, true)] + ([Begin] + [ExpandToken("u")]);
    assert line + firstOfF == [SetAlias("u", sourceF, true, true)] + ([Begin] + ([ExpandToken("u")] + firstOfF));
    // The second definition, and the ends of its parse and of the outer one.
    FindOne(n, c, [[0], []], "u");
    SetAgain(n, c, [[0], []], "u", x);
    EndEmpty(n, d, [[0]]);
    EndLast(n, d);
    RunsNothing(v);
    RunsStep(OneAlias(n, d, [[0]]), End, [], v);
    RunsStep(OneAlias(n, d, [[0], []]), End, [End] + [], v);
    assert [End] + ([End] + []) == [End, End];
  }

  lemma BeginLists()
    ensures var none: seq<seq<nat>> := []; none + [[]] == [[]]
    ensures var one: seq<seq<nat>> := [[0]]; one + [[]] == [[0], []]
  {
  }

  lemma BeginOne(n: nat, a: Alias, lists: seq<seq<nat>>)
    requires n > 0 && Queued(OneAlias(n, a, lists))
    ensures Step(OneAlias(n, a, lists), Begin) == OneAlias(n, a, lists + [[]])
  {
  }
}
