/** The alias pool as nsh_alias.c and nsh_parse.c update it: an array of entries and queues
    of entry numbers.  (The queue library is not part of the repository; a queue is a
    sequence here.) */
module AliasTable {
  import opened Wrappers
  import opened Sequences
  import opened AliasModel
  import opened AliasProofs

  class Pool {
    var atab: array<Alias>
    var alist: seq<nat>
    var afreelist: seq<nat>
    var lists: seq<seq<nat>> // the lists of the nested parses, innermost last

    ghost function Abs(): Table
      reads this, atab
    {
      Table(atab[..], alist, afreelist, lists)
    }

    ghost predicate Valid()
      reads this, atab
    {
      Inv(Abs())
    }

    constructor (n: nat)
      requires n > 0
      ensures Valid() && fresh(atab) && atab.Length == n && alist == afreelist == [] && lists == []
    {
      atab := new Alias[n](_ => BLANK);
      alist, afreelist, lists := [], [], [];
      new;
      BlankInv(n);
      assert Abs() == Table(seq(n, i requires 0 <= i < n => BLANK), [], [], []);
    }

    /** alias_init. */
    method AliasInit()
      requires Valid()
      modifies this`afreelist
      ensures Valid() && Partition(Abs()) && Abs() == Init(old(Abs()))
    {
      InitKeeps(Abs());
      if alist != [] || afreelist != [] {
        return;
      }
      var free: seq<nat> := [];
      for i := 0 to atab.Length
        invariant free == Ids(i)
      {
        free := free + [i];
      }
      afreelist := free;
    }

    /** alias_find. */
    method FindEntry(name: string) returns (found: bool, entry: nat)
      requires Valid()
      ensures Find(atab[..], alist, name) == if found then Some(entry) else None
      ensures found ==> entry < atab.Length && entry in alist
    {
      var k := 0;
      while k < |alist|
        invariant 0 <= k <= |alist| && Below(alist[k..], atab.Length)
        invariant Find(atab[..], alist, name) == Find(atab[..], alist[k..], name)
      {
        assert alist[k..][0] == alist[k] && alist[k..][1..] == alist[k + 1..];
        if atab[alist[k]].name == Some(name) {
          return true, alist[k];
        }
        k := k + 1;
      }
      return false, 0;
    }

    /** alias_delete. */
    method DeleteEntry(entry: nat)
      requires InvBut(Abs(), entry)
      modifies this`alist, this`afreelist, atab
      ensures Valid() && Partition(Abs()) && Abs() == Delete(old(Abs()), entry)
    {
      hide InvBut, Inv;
      DeleteKeeps(Abs(), entry);
      assert entry < atab.Length by { InvButRange(Abs(), entry); }
      if atab[entry].exp {
        atab[entry] := atab[entry].(rem := true);
      } else {
        atab[entry] := BLANK;
        alist := Remove(alist, entry);
        afreelist := [entry] + afreelist;
      }
    }

    /** alias_save. */
    method AliasSave(name: string, value: string, nameOk: bool, valueOk: bool) returns (ret: Ret)
      requires Valid() && Partition(Abs())
      modifies this`alist, this`afreelist, atab
      ensures Valid() && Partition(Abs()) && (Abs(), ret) == Save(old(Abs()), name, value, nameOk, valueOk)
    {
      hide Inv, InvBut;
      LiveRange(Abs());
      SaveKeeps(Abs(), name, value, nameOk, valueOk);
      if name == "" {
        return Invalid;
      }
      var found, entry := FindEntry(name);
      if !found {
        ret := SaveNew(name, value, nameOk, valueOk);
      } else if valueOk {
        atab[entry] := atab[entry].(value := Some(value));
        ret := Ok;
      } else {
        atab[entry] := atab[entry].(value := None);
        assert Abs() == old(Abs()).(atab := old(atab[..])[entry := old(atab[entry]).(value := None)]);
        NoValueIsInvBut(old(Abs()), entry);
        DeleteEntry(entry);
        ret := NoMemory;
      }
    }

    method SaveNew(name: string, value: string, nameOk: bool, valueOk: bool) returns (ret: Ret)
      requires Valid() && Partition(Abs()) && name != "" && Find(atab[..], alist, name).None?
      modifies this`alist, this`afreelist, atab
      ensures (Abs(), ret) == Save(old(Abs()), name, value, nameOk, valueOk)
    {
      if afreelist == [] {
        return NoMemory;
      }
      NewIsInvBut(Abs(), name, value, nameOk, valueOk);
      var entry := afreelist[0];
      afreelist := afreelist[1..];
      atab[entry] := atab[entry].(name := if nameOk then Some(name) else None,
                                  value := if valueOk then Some(value) else None);
      alist := alist + [entry];
      assert Abs() == Appended(old(Abs()), name, value, nameOk, valueOk);
      if nameOk && valueOk {
        return Ok;
      }
      DeleteEntry(entry);
      return NoMemory;
    }

    /** alias_removeall. */
    method RemoveAll()
      requires Valid() && Partition(Abs())
      modifies this`alist, this`afreelist, atab
      ensures Valid() && Partition(Abs()) && Abs() == DeleteAll(old(Abs()), old(alist))
    {
      hide Inv, InvBut, Partition;
      LiveDistinct(Abs());
      var todo := alist;
      LiveRange(Abs());
      while todo != []
        invariant Valid() && Partition(Abs()) && Below(todo, atab.Length) && NoDup(todo)
        invariant forall i :: i in todo ==> i in alist
        invariant DeleteAll(Abs(), todo) == DeleteAll(old(Abs()), old(alist))
        decreases |todo|
      {
        var entry := todo[0];
        ghost var was := Abs();
        LiveIsInvBut(was, entry);
        DeleteEntry(entry);
        OthersLive(was, entry, todo);
        todo := todo[1..];
      }
    }

    /** nsh_aliasfind. */
    method NshAliasFind(token: string) returns (found: bool, entry: nat)
      requires Valid()
      modifies this`afreelist
      ensures Valid() && Partition(Abs()) && Abs() == Init(old(Abs()))
      ensures AliasFind(Abs(), token) == if found then Some(entry) else None
      ensures found ==> entry < atab.Length
    {
      AliasInit();
      found, entry := FindEntry(token);
      found := found && !atab[entry].exp && atab[entry].value.Some?;
    }

    /** NSH_ALIASLIST_INIT. */
    method ListInit()
      requires Valid()
      modifies this`lists
      ensures Valid() && Abs() == BeginParse(old(Abs()))
    {
      BeginKeeps(Abs());
      lists := lists + [[]];
    }

    /** nsh_aliasexpand with nsh_alist_add: the list has room for the entry. */
    method AliasExpand(token: string) returns (value: string)
      requires Valid() && lists != []
      modifies this`afreelist, this`lists, atab
      ensures Valid() && Abs() == Expand(Init(old(Abs())), token)
      ensures value == match AliasFind(Init(old(Abs())), token)
                       case None => token
                       case Some(i) => old(atab[..])[i].value.value
    {
      var found, entry := NshAliasFind(token);
      if !found {
        return token;
      }
      ExpandKeeps(Abs(), token);
      ListHasRoom(Abs(), entry);
      value := atab[entry].value.value;
      var last := lists[|lists| - 1];
      if |last| < atab.Length {
        atab[entry] := atab[entry].(exp := true);
        lists := lists[|lists| - 1 := last + [entry]];
      } else {
        assert false;
      }
    }

    /** nsh_alist_free at the end of the innermost parse. */
    method ListFree()
      requires Valid() && lists != []
      modifies this`alist, this`afreelist, this`lists, atab
      ensures Valid() && Abs() == EndParse(old(Abs()))
    {
      hide Inv, InvBut, FreeOne;
      LiveRange(Abs());
      EndKeeps(Abs());
      while lists[|lists| - 1] != []
        invariant Valid() && lists != [] && Queued(Abs()) && EndParse(Abs()) == EndParse(old(Abs()))
        decreases |lists[|lists| - 1]|
      {
        ghost var was := Abs();
        FreeOneQueued(was);
        FreeFirst();
      }
      lists := lists[..|lists| - 1];
    }

    method FreeFirst()
      requires Valid() && lists != [] && lists[|lists| - 1] != []
      modifies this`alist, this`afreelist, this`lists, atab
      ensures Valid() && Queued(old(Abs())) && Abs() == FreeOne(old(Abs()))
    {
      hide InvBut;
      FreeOneKeeps(Abs());
      FirstIsInvBut(Abs());
      var last := lists[|lists| - 1];
      var entry := last[0];
      atab[entry] := atab[entry].(exp := false);
      lists := lists[|lists| - 1 := last[1..]];
      assert Abs() == Unmarked(old(Abs()));
      if atab[entry].rem {
        DeleteEntry(entry);
      }
    }
  }

  lemma InvButRange(t: Table, i: nat)
    requires InvBut(t, i)
    ensures i < |t.atab|
  {
  }

  lemma LiveRange(t: Table)
    requires Inv(t)
    ensures Queued(t) && Below(t.alist, |t.atab|)
  {
  }

  lemma OthersLive(t: Table, i: nat, todo: seq<nat>)
    requires Inv(t) && Partition(t) && i in t.alist && i < |t.atab| && NoDup(todo) && todo != [] && todo[0] == i
    requires forall j :: j in todo ==> j in t.alist
    ensures forall j :: j in todo[1..] ==> j in Delete(t, i).alist
  {
    LiveDistinct(t);
    RemoveIs(t.alist, i);
    assert forall j :: j in todo[1..] ==> j in todo && j != i;
  }
}
