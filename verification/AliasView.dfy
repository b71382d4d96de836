/** What removal does to the table as an ordered map: the names and values of the live
    entries, in order. */
module AliasView {
  import opened Wrappers
  import opened AliasModel
  import opened AliasProofs

  /** The numbers of `q` that are not in `gone`, in order. */
  function Sift(q: seq<nat>, gone: set<nat>): (r: seq<nat>)
    ensures forall i :: i in r <==> i in q && i !in gone
  {
    if q == [] then []
    else (if q[0] in gone then [] else [q[0]]) + Sift(q[1..], gone)
  }

  /** Name and value of the entries `q`. */
  function ViewOf(atab: seq<Alias>, q: seq<nat>): seq<(Option<string>, Option<string>)>
    requires Below(q, |atab|)
  {
    seq(|q|, p requires 0 <= p < |q| => (atab[q[p]].name, atab[q[p]].value))
  }

  lemma SiftBelow(q: seq<nat>, gone: set<nat>, n: nat)
    requires Below(q, n)
    ensures Below(Sift(q, gone), n)
  {
    var r := Sift(q, gone);
    forall k | 0 <= k < |r|
      ensures r[k] < n
    {
      assert r[k] in r;
    }
  }

  lemma {:induction false} SiftNothing(q: seq<nat>, gone: set<nat>)
    requires forall i :: i in q ==> i !in gone
    ensures Sift(q, gone) == q
  {
    if q != [] {
      assert q[0] in q;
      SiftNothing(q[1..], gone);
    }
  }

  lemma {:induction false} RemoveSifts(q: seq<nat>, i: nat)
    requires NoDup(q)
    ensures Remove(q, i) == Sift(q, {i})
  {
    if q != [] {
      if q[0] == i {
        assert forall k :: k in q[1..] ==> k != i;
        SiftNothing(q[1..], {i});
      } else {
        RemoveSifts(q[1..], i);
      }
    }
  }

  lemma SiftStep(q: seq<nat>, gone: set<nat>)
    requires q != []
    ensures Sift(q, gone) == (if q[0] in gone then [] else [q[0]]) + Sift(q[1..], gone)
  {
  }

  lemma {:induction false} SiftTwice(q: seq<nat>, a: set<nat>, b: set<nat>)
    ensures Sift(Sift(q, a), b) == Sift(q, a + b)
  {
    if q != [] {
      hide Sift;
      SiftTwice(q[1..], a, b);
      SiftStep(q, a);
      SiftStep(q, a + b);
      var rest := Sift(q[1..], a);
      if q[0] in a {
        assert [] + rest == rest;
      } else {
        SiftStep([q[0]] + rest, b);
        assert ([q[0]] + rest)[1..] == rest;
      }
    }
  }

  lemma {:induction false} SiftOne(q: seq<nat>, p: nat)
    requires NoDup(q) && p < |q|
    ensures Sift(q, {q[p]}) == q[..p] + q[p + 1..]
    decreases p
  {
    hide Sift;
    SiftStep(q, {q[p]});
    if p == 0 {
      assert forall k :: k in q[1..] ==> k != q[0];
      SiftNothing(q[1..], {q[0]});
    } else {
      var rest := q[1..];
      SiftOne(rest, p - 1);
      assert q[p] == rest[p - 1] && q[0] != q[p];
      CutTail(q, p);
    }
  }

  lemma CutTail(q: seq<nat>, p: nat)
    requires 0 < p < |q|
    ensures [q[0]] + (q[1..][..p - 1] + q[1..][p..]) == q[..p] + q[p + 1..]
  {
    assert q[..p] == [q[0]] + q[1..][..p - 1] && q[p + 1..] == q[1..][p..];
  }

  /** Entries that keep name and value look the same. */
  lemma SameView(a: seq<Alias>, b: seq<Alias>, q: seq<nat>)
    requires Below(q, |a|) && |b| == |a|
    requires forall i :: i in q ==> a[i].name == b[i].name && a[i].value == b[i].value
    ensures ViewOf(a, q) == ViewOf(b, q)
  {
    assert forall k :: 0 <= k < |q| ==> q[k] in q;
  }

  lemma ViewIs(t: Table)
    requires Below(t.alist, |t.atab|)
    ensures View(t) == ViewOf(t.atab, t.alist)
  {
  }

  // ---------- Removing one ----------

  /** alias_delete: the entry leaves its place and the others close up; an entry that is
      being expanded stays as it is. */
  lemma DeleteView(t: Table, p: nat)
    requires NoDup(t.alist) && Below(t.alist, |t.atab|) && p < |t.alist|
    ensures var u := Delete(t, t.alist[p]);
      && |u.atab| == |t.atab| && Below(u.alist, |u.atab|)
      && View(u) == if t.atab[t.alist[p]].exp then View(t) else View(t)[..p] + View(t)[p + 1..]
  {
    var (i, u) := (t.alist[p], Delete(t, t.alist[p]));
    DeletePlace(t, p);
    hide Delete, NoDup, View, ViewOf;
    ViewIs(t);
    if t.atab[i].exp {
      ViewIs(u);
      SameView(t.atab, u.atab, t.alist);
    } else {
      CutView(t.atab, t.alist, p);
      ViewIs(u);
      SameView(t.atab, u.atab, u.alist);
    }
  }

  lemma DeletePlace(t: Table, p: nat)
    requires NoDup(t.alist) && Below(t.alist, |t.atab|) && p < |t.alist|
    ensures var (i, u) := (t.alist[p], Delete(t, t.alist[p]));
      && |u.atab| == |t.atab| && Below(u.alist, |u.atab|)
      && u.alist == (if t.atab[i].exp then t.alist else t.alist[..p] + t.alist[p + 1..])
      && forall k :: k in u.alist ==> u.atab[k].name == t.atab[k].name && u.atab[k].value == t.atab[k].value
  {
    var i := t.alist[p];
    if !t.atab[i].exp {
      RemoveSifts(t.alist, i);
      RemoveIs(t.alist, i);
      SiftOne(t.alist, p);
      SiftBelow(t.alist, {i}, |t.atab|);
      hide Remove, Sift, NoDup;
    }
  }

  lemma CutView(atab: seq<Alias>, q: seq<nat>, p: nat)
    requires Below(q, |atab|) && p < |q|
    ensures Below(q[..p] + q[p + 1..], |atab|)
    ensures ViewOf(atab, q[..p] + q[p + 1..]) == ViewOf(atab, q)[..p] + ViewOf(atab, q)[p + 1..]
  {
  }

  /** unalias of a name: the binding of that name goes, if it exists and is not being
      expanded. */
  lemma UnaliasView(t: Table, name: string, p: nat)
    requires Inv(t) && Partition(t) && p < |t.alist| && t.atab[t.alist[p]].name == Some(name)
    ensures var u := Step(t, Unalias(name));
      && Below(u.alist, |u.atab|)
      && View(u) == if t.atab[t.alist[p]].exp then View(t) else View(t)[..p] + View(t)[p + 1..]
  {
    hide Untouched, Entries, Marks, View;
    LiveDistinct(t);
    InitKeeps(t);
    FindAt(t, name, p);
    DeleteView(t, p);
  }

  /** A save of an existing name for whose value there is no memory: the name goes, or, while
      it is being expanded, stays without a value and with its removal pending. */
  lemma SaveWithoutValue(t: Table, name: string, value: string, nameOk: bool, p: nat)
    requires Inv(t) && Partition(t) && name != "" && p < |t.alist| && t.atab[t.alist[p]].name == Some(name)
    ensures var ((u, r), i) := (Save(t, name, value, nameOk, false), t.alist[p]);
      && r == NoMemory && Below(u.alist, |u.atab|) && i < |u.atab|
      && if t.atab[i].exp then View(u) == View(t)[p := (Some(name), None)] && u.atab[i].rem
         else View(u) == View(t)[..p] + View(t)[p + 1..]
  {
    var i := t.alist[p];
    var t' := Valueless(t, i);
    LiveDistinct(t);
    FindAt(t, name, p);
    assert Save(t, name, value, nameOk, false) == (Delete(t', i), NoMemory);
    ValuelessView(t, name, p);
    hide Save, Inv, Partition, View, Find;
    DeleteView(t', p);
    if !t.atab[i].exp {
      CutsAgree(View(t), (Some(name), None), p);
    }
  }

  function Valueless(t: Table, i: nat): Table
    requires i < |t.atab|
  {
    t.(atab := t.atab[i := t.atab[i].(value := None)])
  }

  lemma ValuelessView(t: Table, name: string, p: nat)
    requires NoDup(t.alist) && Below(t.alist, |t.atab|) && p < |t.alist| && t.atab[t.alist[p]].name == Some(name)
    ensures |View(t)| == |t.alist| && View(Valueless(t, t.alist[p])) == View(t)[p := (Some(name), None)]
  {
  }

  lemma CutsAgree<T>(q: seq<T>, x: T, p: nat)
    requires p < |q|
    ensures var r := q[p := x]; r[..p] + r[p + 1..] == q[..p] + q[p + 1..]
  {
  }

  // ---------- Removing several ----------

  /** The entries of `q` that alias_delete removes at once. */
  function Idle(t: Table, q: seq<nat>): set<nat>
    requires Below(q, |t.atab|)
  {
    set k | 0 <= k < |q| && !t.atab[q[k]].exp :: q[k]
  }

  lemma {:induction false} DeleteAllSifts(t: Table, q: seq<nat>)
    requires NoDup(t.alist) && Below(t.alist, |t.atab|) && NoDup(q) && Below(q, |t.atab|)
    ensures var u := DeleteAll(t, q);
      && |u.atab| == |t.atab| && u.alist == Sift(t.alist, Idle(t, q))
      && forall i :: 0 <= i < |t.atab| && i !in Idle(t, q) ==>
           u.atab[i].name == t.atab[i].name && u.atab[i].value == t.atab[i].value
    decreases |q|
  {
    hide Sift, NoDup;
    if q == [] {
      SiftNothing(t.alist, Idle(t, []));
      assert DeleteAll(t, []) == t;
    } else {
      var u, rest := Delete(t, q[0]), q[1..];
      DeleteSifts(t, q);
      IdleStep(t, q);
      hide Idle, Delete;
      DeleteAllSifts(u, rest);
      if !t.atab[q[0]].exp {
        SiftTwice(t.alist, {q[0]}, Idle(t, rest));
      } else {
        assert {} + Idle(t, rest) == Idle(t, rest);
      }
    }
  }

  /** One deletion out of several. */
  lemma DeleteSifts(t: Table, q: seq<nat>)
    requires NoDup(t.alist) && Below(t.alist, |t.atab|) && NoDup(q) && Below(q, |t.atab|) && q != []
    ensures var (u, rest) := (Delete(t, q[0]), q[1..]);
      && |u.atab| == |t.atab| && NoDup(u.alist) && Below(u.alist, |u.atab|) && NoDup(rest) && Below(rest, |t.atab|)
      && u.alist == (if t.atab[q[0]].exp then t.alist else Sift(t.alist, {q[0]}))
      && Idle(u, rest) == Idle(t, rest)
      && forall i :: 0 <= i < |t.atab| && (i != q[0] || t.atab[i].exp) ==>
           u.atab[i].name == t.atab[i].name && u.atab[i].value == t.atab[i].value
  {
    var (i, u, rest) := (q[0], Delete(t, q[0]), q[1..]);
    RemoveSifts(t.alist, i);
    RemoveIs(t.alist, i);
    SameIdle(t, u, rest) by {
      forall k | 0 <= k < |rest|
        ensures u.atab[rest[k]] == t.atab[rest[k]]
      {
        assert rest[k] == q[k + 1] != q[0];
      }
    }
  }

  lemma SameIdle(t: Table, u: Table, q: seq<nat>)
    requires Below(q, |t.atab|) && |u.atab| == |t.atab| && forall k :: 0 <= k < |q| ==> u.atab[q[k]] == t.atab[q[k]]
    ensures Idle(u, q) == Idle(t, q)
  {
  }

  lemma IdleStep(t: Table, q: seq<nat>)
    requires Below(q, |t.atab|) && q != []
    ensures Idle(t, q) == (if t.atab[q[0]].exp then {} else {q[0]}) + Idle(t, q[1..])
  {
    assert forall k :: 0 < k < |q| ==> q[k] == q[1..][k - 1];
    forall i
      ensures i in Idle(t, q) <==> (i == q[0] && !t.atab[q[0]].exp) || i in Idle(t, q[1..])
    {
      if i in Idle(t, q[1..]) {
        var k :| 0 <= k < |q| - 1 && !t.atab[q[1..][k]].exp && q[1..][k] == i;
        assert q[k + 1] == i;
      }
    }
  }

  /** alias_removeall keeps, in order, exactly the bindings that are being expanded. */
  lemma RemoveAllView(t: Table)
    requires Inv(t) && Partition(t)
    ensures var u := Step(t, UnaliasAll);
      && |u.atab| == |t.atab| && Below(Sift(t.alist, Idle(t, t.alist)), |t.atab|)
      && u.alist == Sift(t.alist, Idle(t, t.alist)) && View(u) == ViewOf(t.atab, u.alist)
    ensures forall i :: i in Step(t, UnaliasAll).alist <==> i in t.alist && t.atab[i].exp
  {
    LiveDistinct(t);
    InitKeeps(t);
    hide Partition, Entries, Marks, Untouched;
    DeleteAllSifts(t, t.alist);
    var u := DeleteAll(t, t.alist);
    SiftBelow(t.alist, Idle(t, t.alist), |t.atab|);
    ViewIs(u);
    SameView(t.atab, u.atab, u.alist);
    forall i | i in t.alist
      ensures i in Idle(t, t.alist) <==> !t.atab[i].exp
    {
      var k :| 0 <= k < |t.alist| && t.alist[k] == i;
    }
  }

  // ---------- Deferred removal ----------

  /** The entries of `q` whose removal is pending. */
  function Doomed(t: Table, q: seq<nat>): set<nat>
    requires Below(q, |t.atab|)
  {
    set k | 0 <= k < |q| && t.atab[q[k]].rem :: q[k]
  }

  lemma DoomedStep(t: Table, q: seq<nat>)
    requires Below(q, |t.atab|) && q != []
    ensures Doomed(t, q) == (if t.atab[q[0]].rem then {q[0]} else {}) + Doomed(t, q[1..])
  {
    assert forall k :: 0 < k < |q| ==> q[k] == q[1..][k - 1];
    forall i
      ensures i in Doomed(t, q) <==> (i == q[0] && t.atab[q[0]].rem) || i in Doomed(t, q[1..])
    {
      if i in Doomed(t, q[1..]) {
        var k :| 0 <= k < |q| - 1 && t.atab[q[1..][k]].rem && q[1..][k] == i;
        assert q[k + 1] == i;
      }
    }
  }

  lemma FreeOneAlist(t: Table)
    requires Inv(t) && t.lists != [] && t.lists[|t.lists| - 1] != []
    ensures var i := t.lists[|t.lists| - 1][0];
      && i < |t.atab| && NoDup(t.alist)
      && FreeOne(t).alist == if t.atab[i].rem then Remove(t.alist, i) else t.alist
  {
    SomethingTouched(t);
    LiveDistinct(t);
  }

  lemma {:induction false} EndSifts(t: Table)
    requires Inv(t) && t.lists != []
    ensures var last := t.lists[|t.lists| - 1];
      Below(last, |t.atab|) && EndParse(t).alist == Sift(t.alist, Doomed(t, last))
    decreases |t.lists[|t.lists| - 1]|
  {
    var last := t.lists[|t.lists| - 1];
    if last == [] {
      SiftNothing(t.alist, Doomed(t, last));
    } else {
      var i, rest, u := last[0], last[1..], FreeOne(t);
      FreeOneQueued(t);
      FreeOneKeeps(t);
      FreeOneAlist(t);
      RestUnchanged(t);
      DoomedStep(t, last);
      hide Inv, FreeOne;
      EndSifts(u);
      if t.atab[i].rem {
        RemoveSifts(t.alist, i);
        SiftTwice(t.alist, {i}, Doomed(t, rest));
      } else {
        assert {} + Doomed(t, rest) == Doomed(t, rest);
      }
    }
  }

  lemma RestUnchanged(t: Table)
    requires Inv(t) && t.lists != [] && t.lists[|t.lists| - 1] != []
    ensures var (u, rest) := (FreeOne(t), t.lists[|t.lists| - 1][1..]);
      && |u.atab| == |t.atab| && Below(rest, |t.atab|) && Doomed(u, rest) == Doomed(t, rest)
  {
    var (u, rest) := (FreeOne(t), t.lists[|t.lists| - 1][1..]);
    forall k | 0 <= k < |rest|
      ensures rest[k] < |t.atab| && |u.atab| == |t.atab| && u.atab[rest[k]] == t.atab[rest[k]]
    {
      assert rest[k] in rest;
      FreeOneEffect(t, rest[k]);
    }
    FreeOneEffect(t, t.lists[|t.lists| - 1][0]);
  }

  /** The end of a parse takes out, of the bindings in their order, exactly those that it
      expanded and whose removal is pending. */
  lemma EndView(t: Table)
    requires Inv(t) && t.lists != []
    ensures var (u, last) := (EndParse(t), t.lists[|t.lists| - 1]);
      && |u.atab| == |t.atab| && Below(last, |t.atab|) && Below(u.alist, |t.atab|)
      && u.alist == Sift(t.alist, Doomed(t, last)) && View(u) == ViewOf(t.atab, u.alist)
  {
    var (u, last) := (EndParse(t), t.lists[|t.lists| - 1]);
    EndSifts(t);
    EndFrees(t, 0);
    SiftBelow(t.alist, Doomed(t, last), |t.atab|);
    ViewIs(u);
    forall i | i in u.alist
      ensures u.atab[i].name == t.atab[i].name && u.atab[i].value == t.atab[i].value
    {
      EndFrees(t, i);
    }
    hide Inv, EndParse;
    SameView(t.atab, u.atab, u.alist);
  }
}
