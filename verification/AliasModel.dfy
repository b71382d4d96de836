/** The alias pool of nsh_alias.c and the expansion marks of nsh_parse.c, as functions on
    a table value.  A fixed array of entries is shared by a live list and a free list;
    every parse in progress keeps a list of the entries it has expanded. */
module AliasModel {
  import opened Wrappers
  import opened Sequences

  datatype Alias = Alias(name: Option<string>, value: Option<string>, exp: bool, rem: bool)

  const BLANK := Alias(None, None, false, false)

  /** The entries, the two queues of entry numbers, and the lists of the nested parses,
      innermost last. */
  datatype Table = Table(atab: seq<Alias>, alist: seq<nat>, afree: seq<nat>, lists: seq<seq<nat>>)

  datatype Ret = Ok | Invalid | NoMemory

  // ---------- Queues of entries ----------

  predicate NoDup(q: seq<nat>) {
    forall i, j :: 0 <= i < j < |q| ==> q[i] != q[j]
  }

  predicate Below(q: seq<nat>, n: nat) {
    forall i :: 0 <= i < |q| ==> q[i] < n
  }

  /** sq_rem. */
  function Remove(q: seq<nat>, i: nat): (r: seq<nat>)
    ensures forall k :: k in r ==> k in q
    ensures forall n :: Below(q, n) ==> Below(r, n)
  {
    assert forall n :: Below(q, n) && q != [] ==> Below(q[1..], n);
    if q == [] then [] else if q[0] == i then q[1..] else [q[0]] + Remove(q[1..], i)
  }

  lemma {:induction false} RemoveIs(q: seq<nat>, i: nat)
    requires NoDup(q)
    ensures NoDup(Remove(q, i)) && forall k :: k in Remove(q, i) <==> k in q && k != i
    decreases |q|
  {
    if q != [] && q[0] != i {
      RemoveIs(q[1..], i);
      assert q[0] !in Remove(q[1..], i);
      assert forall k :: k in q <==> k == q[0] || k in q[1..];
    } else if q != [] {
      assert forall k :: k in q <==> k == q[0] || k in q[1..];
      assert q[0] !in q[1..];
    }
  }

  function Flat(ls: seq<seq<nat>>): seq<nat> {
    if ls == [] then [] else Flat(ls[..|ls| - 1]) + ls[|ls| - 1]
  }

  // ---------- Operations ----------

  /** alias_init: only while both queues are empty. */
  function Init(t: Table): Table {
    if t.alist != [] || t.afree != [] then t else t.(afree := Ids(|t.atab|))
  }

  predicate Queued(t: Table) {
    && Below(t.alist, |t.atab|) && Below(t.afree, |t.atab|)
    && forall l :: 0 <= l < |t.lists| ==> Below(t.lists[l], |t.atab|)
  }

  /** alias_find: the first live entry of that name. */
  function Find(atab: seq<Alias>, q: seq<nat>, name: string): (r: Option<nat>)
    requires Below(q, |atab|)
    ensures r.Some? ==> r.value in q && r.value < |atab| && atab[r.value].name == Some(name)
    ensures r.None? ==> forall i :: i in q ==> atab[i].name != Some(name)
  {
    if q == [] then None
    else if atab[q[0]].name == Some(name) then Some(q[0])
    else Find(atab, q[1..], name)
  }

  /** alias_delete: an entry that is being expanded is only marked. */
  function Delete(t: Table, i: nat): Table
    requires i < |t.atab|
  {
    if t.atab[i].exp then t.(atab := t.atab[i := t.atab[i].(rem := true)])
    else t.(atab := t.atab[i := BLANK], alist := Remove(t.alist, i), afree := [i] + t.afree)
  }

  /** alias_save.  `nameOk` and `valueOk` say whether strdup succeeds. */
  function Save(t: Table, name: string, value: string, nameOk: bool, valueOk: bool): (Table, Ret)
    requires Queued(t)
  {
    if name == "" then (t, Invalid)
    else
      match Find(t.atab, t.alist, name)
      case Some(i) =>
        if valueOk then (t.(atab := t.atab[i := t.atab[i].(value := Some(value))]), Ok)
        else (Delete(t.(atab := t.atab[i := t.atab[i].(value := None)]), i), NoMemory)
      case None =>
        if t.afree == [] then (t, NoMemory)
        else
          var i := t.afree[0];
          var a := t.atab[i].(name := if nameOk then Some(name) else None,
                              value := if valueOk then Some(value) else None);
          var t1 := t.(atab := t.atab[i := a], afree := t.afree[1..], alist := t.alist + [i]);
          if nameOk && valueOk then (t1, Ok) else (Delete(t1, i), NoMemory)
  }

  /** alias_removeall over the entries `q`. */
  function DeleteAll(t: Table, q: seq<nat>): Table
    requires Below(q, |t.atab|)
    decreases |q|
  {
    if q == [] then t else DeleteAll(Delete(t, q[0]), q[1..])
  }

  /** nsh_aliasfind: a live entry that is not being expanded and has a value. */
  function AliasFind(t: Table, token: string): (r: Option<nat>)
    requires Queued(t)
    ensures r.Some? ==> r.value < |t.atab|
  {
    match Find(t.atab, t.alist, token)
    case None => None
    case Some(i) => if !t.atab[i].exp && t.atab[i].value.Some? then Some(i) else None
  }

  /** A nested parse starts with an empty list. */
  function BeginParse(t: Table): Table {
    t.(lists := t.lists + [[]])
  }

  /** nsh_alist_add to the list of the innermost parse. */
  function ListAdd(t: Table, i: nat): Table
    requires i < |t.atab| && t.lists != []
  {
    var l := |t.lists| - 1;
    if |t.lists[l]| < |t.atab| then
      t.(atab := t.atab[i := t.atab[i].(exp := true)], lists := t.lists[l := t.lists[l] + [i]])
    else t
  }

  /** nsh_aliasexpand, as far as the table goes. */
  function Expand(t: Table, token: string): Table
    requires Queued(t) && t.lists != []
  {
    match AliasFind(t, token)
    case None => t
    case Some(i) => ListAdd(t, i)
  }

  /** One turn of nsh_alist_free: the first entry of the innermost list. */
  function FreeOne(t: Table): Table
    requires Queued(t) && t.lists != [] && t.lists[|t.lists| - 1] != []
  {
    var l := |t.lists| - 1;
    var i := t.lists[l][0];
    var t1 := t.(atab := t.atab[i := t.atab[i].(exp := false)], lists := t.lists[l := t.lists[l][1..]]);
    if t1.atab[i].rem then Delete(t1, i) else t1
  }

  lemma FreeOneQueued(t: Table)
    requires Queued(t) && t.lists != [] && t.lists[|t.lists| - 1] != []
    ensures Queued(FreeOne(t)) && |FreeOne(t).lists| == |t.lists|
    ensures FreeOne(t).lists[|t.lists| - 1] == t.lists[|t.lists| - 1][1..]
  {
  }

  /** nsh_alist_free, and the end of the innermost parse. */
  function EndParse(t: Table): Table
    requires Queued(t) && t.lists != []
    decreases |t.lists[|t.lists| - 1]|
  {
    if t.lists[|t.lists| - 1] == [] then t.(lists := t.lists[..|t.lists| - 1])
    else FreeOneQueued(t); EndParse(FreeOne(t))
  }

  // ---------- The invariant ----------

  /** Before the first alias_init. */
  ghost predicate Untouched(t: Table) {
    t.alist == t.afree == [] && forall i :: 0 <= i < |t.atab| ==> t.atab[i] == BLANK
  }

  /** Every entry is in exactly one of the two queues. */
  ghost predicate Partition(t: Table) {
    && NoDup(t.alist + t.afree)
    && forall i :: i in t.alist + t.afree <==> 0 <= i < |t.atab|
  }

  /** Live entries have distinct non-empty names; free entries are blank. */
  ghost predicate Entries(t: Table)
    requires Queued(t)
  {
    && (forall i :: i in t.alist ==> t.atab[i].name.Some? && t.atab[i].name.value != "")
    && (forall i, j :: i in t.alist && j in t.alist && t.atab[i].name == t.atab[j].name ==> i == j)
    && (forall i :: i in t.afree ==> t.atab[i] == BLANK)
  }

  /** An entry is marked as being expanded exactly when it is in a list, and it is in at
      most one, once; it is marked for removal, or without a value, only while it is
      being expanded. */
  ghost predicate Marks(t: Table)
    requires Queued(t)
  {
    && NoDup(Flat(t.lists))
    && (forall i :: 0 <= i < |t.atab| ==> (t.atab[i].exp <==> i in Flat(t.lists)))
    && (forall i :: 0 <= i < |t.atab| ==> (t.atab[i].rem ==> t.atab[i].exp))
    && (forall i :: i in t.alist ==> (t.atab[i].value.None? ==> t.atab[i].rem))
  }

  ghost predicate Inv(t: Table) {
    |t.atab| > 0 && Queued(t) && (Untouched(t) || Partition(t)) && Entries(t) && Marks(t)
  }
}
