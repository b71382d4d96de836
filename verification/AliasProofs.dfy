/** What every run of alias commands and nested parses keeps. */
module AliasProofs {
  import opened Wrappers
  import opened Sequences
  import opened AliasModel

  // ---------- Lists of lists ----------

  lemma FlatLast(ls: seq<seq<nat>>, last: seq<nat>)
    ensures Flat(ls + [last]) == Flat(ls) + last
  {
    assert (ls + [last])[..|ls|] == ls;
  }

  /** Appending to, or dropping the head of, the innermost list. */
  lemma FlatUpdate(ls: seq<seq<nat>>, last: seq<nat>)
    requires ls != []
    ensures Flat(ls) == Flat(ls[..|ls| - 1]) + ls[|ls| - 1]
    ensures Flat(ls[|ls| - 1 := last]) == Flat(ls[..|ls| - 1]) + last
  {
    assert ls[|ls| - 1 := last][..|ls| - 1] == ls[..|ls| - 1];
  }

  /** Distinct numbers below `n` are at most `n`. */
  lemma {:induction false} Pigeonhole(q: seq<nat>, n: nat)
    requires NoDup(q) && Below(q, n)
    ensures |q| <= n
    decreases n
  {
    hide NoDup, Below;
    if n == 0 {
      if q != [] {
        NoneBelow(q);
      }
    } else {
      RemoveIs(q, n - 1);
      RemoveLength(q, n - 1);
      BelowRemoved(q, n);
      Pigeonhole(Remove(q, n - 1), n - 1);
    }
  }

  lemma NoneBelow(q: seq<nat>)
    requires q != []
    ensures !Below(q, 0)
  {
    assert !(q[0] < 0);
  }

  lemma BelowRemoved(q: seq<nat>, n: nat)
    requires NoDup(q) && Below(q, n) && n > 0
    ensures Below(Remove(q, n - 1), n - 1)
  {
    hide Remove, NoDup;
    RemoveIs(q, n - 1);
    var r := Remove(q, n - 1);
    forall i | 0 <= i < |r|
      ensures r[i] < n - 1
    {
      assert r[i] in r && r[i] in q;
    }
  }

  lemma {:induction false} RemoveLength(q: seq<nat>, i: nat)
    ensures |Remove(q, i)| >= |q| - 1
  {
    if q != [] && q[0] != i {
      RemoveLength(q[1..], i);
    }
  }

  // ---------- Each operation keeps the invariant ----------

  /** What Entries says, but about entry `i`. */
  ghost predicate EntriesBut(t: Table, i: nat)
    requires Queued(t) && i < |t.atab|
  {
    && (forall j :: j in t.alist && (j != i || t.atab[i].exp) ==> t.atab[j].name.Some? && t.atab[j].name.value != "")
    && (forall j, k :: j in t.alist && k in t.alist && t.atab[j].name == t.atab[k].name ==>
          j == k || (!t.atab[i].exp && (j == i || k == i)))
    && (forall j :: j in t.afree ==> t.atab[j] == BLANK)
  }

  /** What Marks says, but about entry `i`. */
  ghost predicate MarksBut(t: Table, i: nat)
    requires Queued(t)
  {
    && NoDup(Flat(t.lists))
    && (forall j :: 0 <= j < |t.atab| ==> (t.atab[j].exp <==> j in Flat(t.lists)))
    && (forall j :: 0 <= j < |t.atab| && j != i ==> (t.atab[j].rem ==> t.atab[j].exp))
    && (forall j :: j in t.alist && j != i ==> (t.atab[j].value.None? ==> t.atab[j].rem))
  }

  /** The invariant, but for what it says about entry `i`, which is live. */
  ghost predicate InvBut(t: Table, i: nat) {
    && |t.atab| > 0 && i < |t.atab| && i in t.alist && Queued(t) && Partition(t)
    && EntriesBut(t, i) && MarksBut(t, i)
  }

  lemma MoveToFree(alist: seq<nat>, afree: seq<nat>, i: nat)
    requires NoDup(alist + afree) && i in alist
    ensures NoDup(Remove(alist, i) + ([i] + afree))
    ensures forall k :: k in Remove(alist, i) + ([i] + afree) <==> k in alist + afree
    ensures forall k :: k in Remove(alist, i) <==> k in alist && k != i
  {
    var all := alist + afree;
    forall a, b | 0 <= a < b < |alist|
      ensures alist[a] != alist[b]
    {
      assert all[a] == alist[a] && all[b] == alist[b];
    }
    RemoveIs(alist, i);
    var r := Remove(alist, i);
    var f := [i] + afree;
    forall k | k in alist
      ensures k !in afree
    {
      var a :| 0 <= a < |alist| && alist[a] == k;
      forall b | 0 <= b < |afree|
        ensures afree[b] != k
      {
        assert all[a] == k && all[|alist| + b] == afree[b];
      }
    }
    forall a, b | 0 <= a < b < |f|
      ensures f[a] != f[b]
    {
      assert a > 0 ==> all[|alist| + a - 1] == afree[a - 1] == f[a];
      assert all[|alist| + b - 1] == afree[b - 1] == f[b];
      assert f[b] in afree;
    }
    assert NoDup(f);
    forall a, b | 0 <= a < b < |r + f|
      ensures (r + f)[a] != (r + f)[b]
    {
      if a < |r| <= b {
        assert r[a] in r && f[b - |r|] in f;
      }
    }
  }

  lemma DeleteKeeps(t: Table, i: nat)
    requires InvBut(t, i)
    ensures Inv(Delete(t, i)) && Partition(Delete(t, i))
  {
    hide Partition, EntriesBut, MarksBut, Entries, Marks;
    if !t.atab[i].exp {
      DeleteMoves(t, i);
    } else {
      SamePartition(t, Delete(t, i));
    }
    DeleteEntries(t, i);
    DeleteMarks(t, i);
  }

  lemma SamePartition(t: Table, u: Table)
    requires Partition(t) && u.alist == t.alist && u.afree == t.afree && |u.atab| == |t.atab|
    ensures Partition(u)
  {
  }

  lemma DeleteMoves(t: Table, i: nat)
    requires i < |t.atab| && i in t.alist && Queued(t) && Partition(t) && !t.atab[i].exp
    ensures Queued(Delete(t, i)) && Partition(Delete(t, i))
  {
    MoveToFree(t.alist, t.afree, i);
  }

  lemma DeleteEntries(t: Table, i: nat)
    requires InvBut(t, i) && Queued(Delete(t, i))
    ensures Entries(Delete(t, i))
  {
    hide MarksBut;
    if !t.atab[i].exp {
      MoveToFree(t.alist, t.afree, i);
      hide Partition, Remove;
    }
  }

  lemma DeleteMarks(t: Table, i: nat)
    requires InvBut(t, i) && Queued(Delete(t, i))
    ensures Marks(Delete(t, i))
  {
    hide EntriesBut;
    if !t.atab[i].exp {
      MoveToFree(t.alist, t.afree, i);
      hide Partition, Remove;
    }
  }

  lemma InitKeeps(t: Table)
    requires Inv(t)
    ensures Inv(Init(t)) && Partition(Init(t))
    ensures Partition(t) ==> Init(t) == t
  {
    if Untouched(t) {
      assert t.alist + Ids(|t.atab|) == Ids(|t.atab|);
      forall i | 0 <= i < |t.atab|
        ensures i in Ids(|t.atab|)
      {
        assert Ids(|t.atab|)[i] == i;
      }
    }
    if Partition(t) {
      assert 0 in t.alist + t.afree;
    }
  }

  /** An existing entry whose new value could not be stored. */
  lemma NoValueIsInvBut(t: Table, i: nat)
    requires Inv(t) && Partition(t) && i in t.alist && i < |t.atab|
    ensures InvBut(t.(atab := t.atab[i := t.atab[i].(value := None)]), i)
  {
  }

  lemma SaveKeeps(t: Table, name: string, value: string, nameOk: bool, valueOk: bool)
    requires Inv(t) && Partition(t)
    ensures Inv(Save(t, name, value, nameOk, valueOk).0) && Partition(Save(t, name, value, nameOk, valueOk).0)
  {
    if name != "" {
      match Find(t.atab, t.alist, name)
      case Some(i) =>
        if !valueOk {
          NoValueIsInvBut(t, i);
          DeleteKeeps(t.(atab := t.atab[i := t.atab[i].(value := None)]), i);
        }
      case None =>
        if t.afree != [] {
          SaveNewKeeps(t, name, value, nameOk, valueOk);
        }
    }
  }

  lemma TakeFree(alist: seq<nat>, afree: seq<nat>)
    requires afree != []
    ensures (alist + [afree[0]]) + afree[1..] == alist + afree
  {
  }

  /** The table in which a new entry has been appended, but not yet checked. */
  function Appended(t: Table, name: string, value: string, nameOk: bool, valueOk: bool): Table
    requires t.afree != [] && t.afree[0] < |t.atab|
  {
    var i := t.afree[0];
    var a := t.atab[i].(name := if nameOk then Some(name) else None, value := if valueOk then Some(value) else None);
    t.(atab := t.atab[i := a], afree := t.afree[1..], alist := t.alist + [i])
  }

  lemma NewIsInvBut(t: Table, name: string, value: string, nameOk: bool, valueOk: bool)
    requires Inv(t) && Partition(t) && name != "" && Find(t.atab, t.alist, name).None? && t.afree != []
    ensures var u := Appended(t, name, value, nameOk, valueOk);
      InvBut(u, t.afree[0]) && (nameOk && valueOk ==> Inv(u))
  {
    var i := t.afree[0];
    var u := Appended(t, name, value, nameOk, valueOk);
    TakeFree(t.alist, t.afree);
    FreshEntry(t.alist, t.afree);
    assert Partition(u) && Queued(u);
    hide Partition, Find;
    assert forall k :: k in u.alist <==> k in t.alist || k == i;
    assert i !in t.alist && forall k :: k in u.afree ==> k in t.afree && k != i;
    NewEntries(t, name, value, nameOk, valueOk);
    NewMarks(t, name, value, nameOk, valueOk);
  }

  lemma NewEntries(t: Table, name: string, value: string, nameOk: bool, valueOk: bool)
    requires Inv(t) && name != "" && Find(t.atab, t.alist, name).None? && t.afree != []
    requires var (u, i) := (Appended(t, name, value, nameOk, valueOk), t.afree[0]);
      && Queued(u) && i !in t.alist && (forall k :: k in u.alist <==> k in t.alist || k == i)
      && forall k :: k in u.afree ==> k in t.afree && k != i
    ensures var u := Appended(t, name, value, nameOk, valueOk);
      EntriesBut(u, t.afree[0]) && (nameOk ==> Entries(u))
  {
    var i := t.afree[0];
    assert t.atab[i] == BLANK && i !in Flat(t.lists);
    hide Marks, Partition;
    var u := Appended(t, name, value, nameOk, valueOk);
    assert forall j :: j in t.alist ==> u.atab[j] == t.atab[j];
  }

  lemma NewMarks(t: Table, name: string, value: string, nameOk: bool, valueOk: bool)
    requires Inv(t) && t.afree != []
    requires var (u, i) := (Appended(t, name, value, nameOk, valueOk), t.afree[0]);
      && Queued(u) && i !in t.alist && (forall k :: k in u.alist <==> k in t.alist || k == i)
    ensures var u := Appended(t, name, value, nameOk, valueOk);
      MarksBut(u, t.afree[0]) && (valueOk ==> Marks(u))
  {
    var i := t.afree[0];
    assert t.atab[i] == BLANK;
    hide Entries, Partition, NoDup;
  }

  lemma SaveNewKeeps(t: Table, name: string, value: string, nameOk: bool, valueOk: bool)
    requires Inv(t) && Partition(t) && name != "" && Find(t.atab, t.alist, name).None? && t.afree != []
    ensures Inv(Save(t, name, value, nameOk, valueOk).0) && Partition(Save(t, name, value, nameOk, valueOk).0)
  {
    NewIsInvBut(t, name, value, nameOk, valueOk);
    var u := Appended(t, name, value, nameOk, valueOk);
    TakeFree(t.alist, t.afree);
    assert Partition(u);
    hide InvBut, Inv;
    if !(nameOk && valueOk) {
      DeleteKeeps(u, t.afree[0]);
    }
  }

  lemma FreshEntry(alist: seq<nat>, afree: seq<nat>)
    requires NoDup(alist + afree) && afree != []
    ensures afree[0] !in alist && afree[0] !in afree[1..]
  {
    var all := alist + afree;
    assert all[|alist|] == afree[0];
    forall k | 0 <= k < |alist|
      ensures alist[k] != afree[0]
    {
      assert all[k] == alist[k];
    }
    forall k | 0 <= k < |afree| - 1
      ensures afree[1..][k] != afree[0]
    {
      assert all[|alist| + 1 + k] == afree[1..][k];
    }
  }

  lemma BeginKeeps(t: Table)
    requires Inv(t)
    ensures Inv(BeginParse(t)) && (Partition(t) ==> Partition(BeginParse(t)))
  {
    hide Entries, Marks, Untouched, Partition, NoDup;
    FlatLast(t.lists, []);
    assert Flat(t.lists) + [] == Flat(t.lists);
    SameFlat(t, BeginParse(t));
  }

  /** An empty list more, or less. */
  lemma SameFlat(t: Table, u: Table)
    requires Inv(t) && u == t.(lists := u.lists) && Flat(u.lists) == Flat(t.lists)
    requires forall l :: 0 <= l < |u.lists| ==> Below(u.lists[l], |t.atab|)
    ensures Inv(u) && (Partition(t) ==> Partition(u))
  {
    hide NoDup, Flat;
  }

  /** The capacity of a list is never reached when an entry is added: entries in the lists
      are distinct, and the one to be added is in none of them. */
  lemma ListHasRoom(t: Table, i: nat)
    requires Inv(t) && t.lists != [] && i < |t.atab| && !t.atab[i].exp
    ensures |t.lists[|t.lists| - 1]| < |t.atab|
  {
    var last := t.lists[|t.lists| - 1];
    var before := Flat(t.lists[..|t.lists| - 1]);
    FlatUpdate(t.lists, last);
    assert i !in last by {
      assert forall k :: k in last ==> k in before + last;
    }
    var q := last + [i];
    forall a, b | 0 <= a < b < |q|
      ensures q[a] != q[b]
    {
      assert b < |last| ==> (before + last)[|before| + a] == q[a] && (before + last)[|before| + b] == q[b];
      assert a < |last| && last[a] in last;
    }
    Pigeonhole(q, |t.atab|);
  }

  lemma ExpandKeeps(t: Table, token: string)
    requires Inv(t) && t.lists != []
    ensures Inv(Expand(t, token)) && (Partition(t) ==> Partition(Expand(t, token)))
  {
    match AliasFind(t, token)
    case None =>
    case Some(i) =>
      ListHasRoom(t, i);
      ListAddKeeps(t, i);
  }

  lemma ListAddKeeps(t: Table, i: nat)
    requires Inv(t) && t.lists != [] && i in t.alist && i < |t.atab| && !t.atab[i].exp && t.atab[i].value.Some?
    requires |t.lists[|t.lists| - 1]| < |t.atab|
    ensures Inv(ListAdd(t, i)) && (Partition(t) ==> Partition(ListAdd(t, i)))
  {
    var u := ListAdd(t, i);
    var l := |t.lists| - 1;
    var last := t.lists[l];
    FlatUpdate(t.lists, last + [i]);
    assert Flat(u.lists) == Flat(t.lists) + [i];
    assert forall k :: k in Flat(u.lists) <==> k in Flat(t.lists) || k == i;
  }

  /** The first entry of the innermost list has been unmarked. */
  function Unmarked(t: Table): Table
    requires Queued(t) && t.lists != [] && t.lists[|t.lists| - 1] != []
  {
    var l := |t.lists| - 1;
    var i := t.lists[l][0];
    t.(atab := t.atab[i := t.atab[i].(exp := false)], lists := t.lists[l := t.lists[l][1..]])
  }

  lemma FirstIsInvBut(t: Table)
    requires Inv(t) && t.lists != [] && t.lists[|t.lists| - 1] != []
    ensures var i := t.lists[|t.lists| - 1][0];
      i < |t.atab| && (if t.atab[i].rem then InvBut(Unmarked(t), i) else Inv(Unmarked(t)))
  {
    hide Entries, Marks, EntriesBut, MarksBut, Untouched, Partition;
    var i := t.lists[|t.lists| - 1][0];
    UnmarkedQueued(t);
    FirstMarks(t);
    FirstEntries(t);
    SomethingTouched(t);
    SamePartition(t, Unmarked(t));
    if t.atab[i].rem {
      NotUntouched(t, i);
    }
  }

  lemma UnmarkedQueued(t: Table)
    requires Queued(t) && t.lists != [] && t.lists[|t.lists| - 1] != []
    ensures Queued(Unmarked(t)) && t.lists[|t.lists| - 1][0] < |t.atab|
  {
  }

  lemma FirstMarks(t: Table)
    requires Queued(t) && Marks(t) && t.lists != [] && t.lists[|t.lists| - 1] != [] && Queued(Unmarked(t))
    ensures var i := t.lists[|t.lists| - 1][0];
      MarksBut(Unmarked(t), i) && (!t.atab[i].rem ==> Marks(Unmarked(t)))
    ensures t.atab[t.lists[|t.lists| - 1][0]].exp
  {
    var l := |t.lists| - 1;
    var last := t.lists[l];
    var (i, before) := (last[0], Flat(t.lists[..l]));
    FlatUpdate(t.lists, last[1..]);
    assert last == [i] + last[1..];
    TakeOut(before, last[1..], i);
    hide NoDup;
    assert (before + ([i] + last[1..]))[|before|] == i;
    assert i in Flat(t.lists);
  }

  lemma FirstEntries(t: Table)
    requires Queued(t) && Entries(t) && Marks(t) && t.lists != [] && t.lists[|t.lists| - 1] != [] && Queued(Unmarked(t))
    ensures var i := t.lists[|t.lists| - 1][0];
      EntriesBut(Unmarked(t), i) && Entries(Unmarked(t))
  {
    assert t.atab[t.lists[|t.lists| - 1][0]].exp by {
      FirstMarks(t);
    }
    hide Marks, Queued;
  }

  lemma NotUntouched(t: Table, i: nat)
    requires Inv(t) && i < |t.atab| && t.atab[i].rem
    ensures Partition(t) && i in t.alist
  {
    assert t.atab[i] != BLANK;
    assert i in t.alist + t.afree;
  }

  /** An entry in a list is marked, so the pool has been set up. */
  lemma SomethingTouched(t: Table)
    requires Inv(t) && t.lists != [] && t.lists[|t.lists| - 1] != []
    ensures Partition(t)
  {
    UnmarkedQueued(t);
    FirstMarks(t);
  }

  lemma FreeOneKeeps(t: Table)
    requires Inv(t) && t.lists != [] && t.lists[|t.lists| - 1] != []
    ensures Inv(FreeOne(t)) && (Partition(t) ==> Partition(FreeOne(t)))
  {
    FirstIsInvBut(t);
    var i := t.lists[|t.lists| - 1][0];
    if t.atab[i].rem {
      DeleteKeeps(Unmarked(t), i);
    }
  }

  lemma TakeOut(a: seq<nat>, b: seq<nat>, i: nat)
    requires NoDup(a + ([i] + b))
    ensures NoDup(a + b) && forall k :: k in a + b <==> k in a + ([i] + b) && k != i
  {
    var all := a + ([i] + b);
    assert all[|a|] == i;
    forall x, y | 0 <= x < y < |a + b|
      ensures (a + b)[x] != (a + b)[y]
    {
      assert (a + b)[x] == all[if x < |a| then x else x + 1] && (a + b)[y] == all[if y < |a| then y else y + 1];
    }
    forall x | 0 <= x < |a + b|
      ensures (a + b)[x] != i
    {
      assert (a + b)[x] == all[if x < |a| then x else x + 1];
    }
  }

  lemma {:induction false} EndKeeps(t: Table)
    requires Inv(t) && t.lists != []
    ensures Inv(EndParse(t)) && (Partition(t) ==> Partition(EndParse(t)))
    decreases |t.lists[|t.lists| - 1]|
  {
    hide Entries, Marks, Untouched, Partition, NoDup;
    if t.lists[|t.lists| - 1] == [] {
      FlatUpdate(t.lists, []);
      var front := Flat(t.lists[..|t.lists| - 1]);
      assert Flat(t.lists) == front + [] == front;
      SameFlat(t, EndParse(t));
    } else {
      FreeOneQueued(t);
      FreeOneKeeps(t);
      EndKeeps(FreeOne(t));
    }
  }

  // ---------- Runs ----------

  /** What the shell does with aliases: the two commands, and parses that begin, expand a
      token and end. */
  datatype Op =
    | SetAlias(name: string, value: string, nameOk: bool, valueOk: bool)
    | Unalias(name: string)
    | UnaliasAll
    | Begin
    | ExpandToken(token: string)
    | End

  function Step(t: Table, op: Op): Table
    requires Queued(t)
  {
    match op
    case SetAlias(name, value, nameOk, valueOk) => Save(Init(t), name, value, nameOk, valueOk).0
    case Unalias(name) =>
      (match Find(Init(t).atab, Init(t).alist, name)
       case None => Init(t)
       case Some(i) => Delete(Init(t), i))
    case UnaliasAll => DeleteAll(Init(t), Init(t).alist)
    case Begin => BeginParse(t)
    case ExpandToken(token) => if t.lists == [] then t else Expand(Init(t), token)
    case End => if t.lists == [] then t else EndParse(t)
  }

  lemma LiveIsInvBut(t: Table, i: nat)
    requires Inv(t) && Partition(t) && i in t.alist
    ensures InvBut(t, i)
  {
  }

  lemma {:induction false} DeleteAllKeeps(t: Table, q: seq<nat>)
    requires Inv(t) && Partition(t) && Below(q, |t.atab|) && NoDup(q) && forall i :: i in q ==> i in t.alist
    ensures Inv(DeleteAll(t, q)) && Partition(DeleteAll(t, q))
    decreases |q|
  {
    if q != [] {
      LiveIsInvBut(t, q[0]);
      DeleteKeeps(t, q[0]);
      if !t.atab[q[0]].exp {
        MoveToFree(t.alist, t.afree, q[0]);
      }
      assert forall i :: i in q[1..] ==> i in q && i != q[0];
      DeleteAllKeeps(Delete(t, q[0]), q[1..]);
    }
  }

  lemma StepKeeps(t: Table, op: Op)
    requires Inv(t)
    ensures Inv(Step(t, op)) && (Partition(t) ==> Partition(Step(t, op)))
  {
    hide Partition, Untouched, Entries, Marks, Save, Delete, DeleteAll, Expand, EndParse;
    InitKeeps(t);
    var u := Init(t);
    match op
    case SetAlias(name, value, nameOk, valueOk) => SaveKeeps(u, name, value, nameOk, valueOk);
    case Unalias(name) =>
      var r := Find(u.atab, u.alist, name);
      if r.Some? {
        LiveIsInvBut(u, r.value);
        DeleteKeeps(u, r.value);
      }
    case UnaliasAll =>
      LiveDistinct(u);
      DeleteAllKeeps(u, u.alist);
    case Begin => BeginKeeps(t);
    case ExpandToken(token) =>
      if t.lists != [] {
        ExpandKeeps(u, token);
      }
    case End =>
      if t.lists != [] {
        EndKeeps(t);
      }
  }

  lemma LiveDistinct(t: Table)
    requires Partition(t)
    ensures NoDup(t.alist)
  {
    forall a, b | 0 <= a < b < |t.alist|
      ensures t.alist[a] != t.alist[b]
    {
      assert (t.alist + t.afree)[a] == t.alist[a] && (t.alist + t.afree)[b] == t.alist[b];
    }
  }

  ghost predicate Runs(t: Table, ops: seq<Op>, u: Table)
    decreases |ops|
  {
    if ops == [] then u == t else Queued(t) && Runs(Step(t, ops[0]), ops[1..], u)
  }

  /** The invariant holds after every history, from the blank table on; and once the pool
      is set up it stays set up. */
  lemma {:induction false} RunKeeps(t: Table, ops: seq<Op>, u: Table)
    requires Inv(t) && Runs(t, ops, u)
    ensures Inv(u) && (Partition(t) ==> Partition(u))
    decreases |ops|
  {
    hide Inv, Partition, Step;
    if ops != [] {
      StepKeeps(t, ops[0]);
      RunKeeps(Step(t, ops[0]), ops[1..], u);
    }
  }

  /** The table of a new console, of `n` entries. */
  function BlankTable(n: nat): Table {
    Table(seq(n, i requires 0 <= i < n => BLANK), [], [], [])
  }

  lemma BlankInv(n: nat)
    requires n > 0
    ensures Inv(BlankTable(n))
  {
  }

  // ---------- What the operations do ----------

  /** Name and value of the live entries, in order. */
  function View(t: Table): seq<(Option<string>, Option<string>)>
    requires Below(t.alist, |t.atab|)
  {
    seq(|t.alist|, p requires 0 <= p < |t.alist| => (t.atab[t.alist[p]].name, t.atab[t.alist[p]].value))
  }

  /** alias_find stops at the first live entry of the name. */
  lemma {:induction false} FindIsFirst(atab: seq<Alias>, q: seq<nat>, name: string)
    requires Below(q, |atab|)
    ensures match Find(atab, q, name)
      case Some(i) => exists p :: 0 <= p < |q| && q[p] == i && atab[i].name == Some(name)
                                  && forall k :: 0 <= k < p ==> atab[q[k]].name != Some(name)
      case None => forall k :: 0 <= k < |q| ==> atab[q[k]].name != Some(name)
    decreases |q|
  {
    if q != [] && atab[q[0]].name != Some(name) {
      FindIsFirst(atab, q[1..], name);
      match Find(atab, q[1..], name)
      case None =>
      case Some(i) =>
        var p :| 0 <= p < |q| - 1 && q[1..][p] == i && forall k :: 0 <= k < p ==> atab[q[1..][k]].name != Some(name);
        forall k | 0 <= k < p + 1
          ensures atab[q[k]].name != Some(name)
        {
          assert k > 0 ==> q[k] == q[1..][k - 1];
        }
        assert q[p + 1] == i;
    }
  }

  /** nsh_aliasfind: the one live entry of that name, if it has a value and is not being
      expanded; nothing exactly when there is no such entry. */
  lemma AliasFindIs(t: Table, token: string, i: nat)
    requires Inv(t)
    ensures AliasFind(t, token) == Some(i) <==>
      i in t.alist && t.atab[i].name == Some(token) && !t.atab[i].exp && t.atab[i].value.Some?
  {
    hide Untouched, Partition, Marks;
    var r := Find(t.atab, t.alist, token);
    assert r.Some? && i in t.alist && t.atab[i].name == Some(token) ==> r.value == i;
  }

  /** Where a name stands in the live list: at most one place. */
  lemma FindAt(t: Table, name: string, p: nat)
    requires Inv(t) && p < |t.alist| && t.atab[t.alist[p]].name == Some(name)
    ensures Find(t.atab, t.alist, name) == Some(t.alist[p])
  {
    assert t.alist[p] in t.alist;
  }

  /** Saving an alias that exists changes its value in place, marks included. */
  lemma SaveUpdates(t: Table, name: string, value: string, nameOk: bool, p: nat)
    requires Inv(t) && Partition(t) && name != "" && p < |t.alist| && t.atab[t.alist[p]].name == Some(name)
    ensures var (u, r) := Save(t, name, value, nameOk, true);
      && r == Ok && u.alist == t.alist && u.afree == t.afree && u.lists == t.lists
      && View(u) == View(t)[p := (Some(name), Some(value))]
  {
    FindAt(t, name, p);
    LiveDistinct(t);
  }

  /** Saving a new one appends it, unless the pool is exhausted or memory runs out: then
      nothing changes. */
  lemma SaveAppends(t: Table, name: string, value: string, nameOk: bool, valueOk: bool)
    requires Inv(t) && Partition(t) && name != "" && Find(t.atab, t.alist, name).None?
    ensures var (u, r) := Save(t, name, value, nameOk, valueOk);
      && (r == Ok <==> t.afree != [] && nameOk && valueOk)
      && (r == Ok ==> View(u) == View(t) + [(Some(name), Some(value))] && |u.afree| == |t.afree| - 1)
      && (r != Ok ==> r == NoMemory && u == t)
    ensures t.afree == [] <==> |t.alist| == |t.atab|
  {
    PoolSize(t);
    if t.afree != [] {
      FreshEntry(t.alist, t.afree);
      var i := t.afree[0];
      assert t.atab[i] == BLANK;
      if !(nameOk && valueOk) {
        RemoveLast(t.alist, i);
        var u := Save(t, name, value, nameOk, valueOk).0;
        assert u.atab == t.atab && u.afree == t.afree && u.alist == t.alist;
      }
    }
  }

  lemma {:induction false} RemoveLast(q: seq<nat>, i: nat)
    requires i !in q
    ensures Remove(q + [i], i) == q
  {
    if q != [] {
      assert (q + [i])[1..] == q[1..] + [i];
      RemoveLast(q[1..], i);
    }
  }

  lemma PoolSize(t: Table)
    requires Partition(t)
    ensures |t.alist| + |t.afree| == |t.atab|
  {
    var all := t.alist + t.afree;
    assert forall k :: 0 <= k < |all| ==> all[k] in all;
    Pigeonhole(all, |t.atab|);
    Covers(all, |t.atab|);
  }

  lemma {:induction false} Covers(q: seq<nat>, n: nat)
    requires NoDup(q) && forall i: nat :: i < n ==> i in q
    ensures |q| >= n
    decreases n
  {
    if n > 0 {
      RemoveIs(q, n - 1);
      RemoveOne(q, n - 1);
      Covers(Remove(q, n - 1), n - 1);
    }
  }

  lemma {:induction false} RemoveOne(q: seq<nat>, i: nat)
    requires i in q
    ensures |Remove(q, i)| == |q| - 1
  {
    if q[0] != i {
      assert i in q[1..];
      RemoveOne(q[1..], i);
    }
  }

  /** Expanding a token marks an entry that was in no list, so no alias is expanded twice
      while an expansion of it is live; names, values and queues stay. */
  lemma ExpandMarks(t: Table, token: string)
    requires Inv(t) && t.lists != []
    ensures var u := Expand(t, token);
      && u.alist == t.alist && u.afree == t.afree && View(u) == View(t)
      && match AliasFind(t, token)
         case None => u == t
         case Some(i) => i !in Flat(t.lists) && Flat(u.lists) == Flat(t.lists) + [i] && u.atab[i].exp
  {
    match AliasFind(t, token)
    case None =>
    case Some(i) =>
      ListHasRoom(t, i);
      FlatUpdate(t.lists, t.lists[|t.lists| - 1] + [i]);
  }

  /** Freeing a list: each of its entries loses its mark, and has left the table if it was
      marked for removal; all other entries are as before. */
  lemma {:induction false} EndFrees(t: Table, i: nat)
    requires Inv(t) && t.lists != [] && i < |t.atab|
    ensures |EndParse(t).atab| == |t.atab| && EndParse(t).lists == t.lists[..|t.lists| - 1]
    ensures var u := EndParse(t);
      if i in t.lists[|t.lists| - 1] && t.atab[i].rem then i !in u.alist && u.atab[i] == BLANK
      else
        && (i in u.alist <==> i in t.alist)
        && u.atab[i] == if i in t.lists[|t.lists| - 1] then t.atab[i].(exp := false) else t.atab[i]
    decreases |t.lists[|t.lists| - 1]|
  {
    var last := t.lists[|t.lists| - 1];
    if last != [] {
      FreeOneQueued(t);
      FreeOneKeeps(t);
      FreeOneEffect(t, i);
      EndFrees(FreeOne(t), i);
    }
  }

  lemma FreeOneEffect(t: Table, i: nat)
    requires Inv(t) && t.lists != [] && t.lists[|t.lists| - 1] != [] && i < |t.atab|
    ensures var u := FreeOne(t);
      var last := t.lists[|t.lists| - 1];
      && |u.atab| == |t.atab| && u.lists == t.lists[|t.lists| - 1 := last[1..]]
      && (i in last <==> i == last[0] || i in last[1..]) && last[0] !in last[1..]
      && (i != last[0] ==> u.atab[i] == t.atab[i] && (i in u.alist <==> i in t.alist))
      && (i == last[0] && t.atab[i].rem ==> u.atab[i] == BLANK && i !in u.alist)
      && (i == last[0] && !t.atab[i].rem ==>
            u.atab[i] == t.atab[i].(exp := false) && (i in u.alist <==> i in t.alist))
  {
    var last := t.lists[|t.lists| - 1];
    var before := Flat(t.lists[..|t.lists| - 1]);
    FlatUpdate(t.lists, last[1..]);
    assert last == [last[0]] + last[1..];
    forall k | 0 <= k < |last| - 1
      ensures last[1..][k] != last[0]
    {
      assert (before + last)[|before|] == last[0] && (before + last)[|before| + 1 + k] == last[1..][k];
    }
    if t.atab[last[0]].rem {
      assert Partition(t);
      LiveDistinct(t);
      RemoveIs(t.alist, last[0]);
    }
  }

  /** An empty name cannot be saved, and there is nothing to take out under a name that no live
      entry has: neither changes the table, once the pool is set up. */
  lemma NothingChanges(t: Table, value: string, nameOk: bool, valueOk: bool, name: string)
    requires Inv(t) && Partition(t) && forall p :: 0 <= p < |t.alist| ==> t.atab[t.alist[p]].name != Some(name)
    ensures Save(t, "", value, nameOk, valueOk) == (t, Invalid)
    ensures Step(t, Unalias(name)) == t
  {
    InitKeeps(t);
    assert |""| == 0;
  }
}
