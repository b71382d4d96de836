/** What the store of shell variables means (nsh_vars.c): a list of bindings, kept as one
    buffer of `name=value` strings. */
module Variables {
  import opened Wrappers
  import opened CStrings

  datatype Binding = Binding(name: seq<char>, value: seq<char>)

  predicate IsName(name: seq<char>) {
    '=' !in name && NUL !in name
  }

  predicate Proper(b: Binding) {
    IsName(b.name) && NUL !in b.value
  }

  /** Bindings in the order of the buffer. */
  ghost predicate AllProper(es: seq<Binding>) {
    forall i :: 0 <= i < |es| ==> Proper(es[i])
  }

  /** Each name at most once. */
  ghost predicate Store(es: seq<Binding>) {
    AllProper(es) && forall i, j :: 0 <= i < j < |es| ==> es[i].name != es[j].name
  }

  // ---------- Bytes ----------

  function Pair(b: Binding): seq<char> {
    b.name + ['='] + b.value
  }

  /** The bytes of the buffer. */
  function Encode(es: seq<Binding>): seq<char> {
    if es == [] then [] else Pair(es[0]) + [NUL] + Encode(es[1..])
  }

  lemma {:induction false} EncodeAppend(a: seq<Binding>, b: seq<Binding>)
    ensures Encode(a + b) == Encode(a) + Encode(b)
  {
    hide Pair, Encode;
    if a == [] {
      assert a + b == b;
      EncodeNothing();
    } else {
      EncodeAppend(a[1..], b);
      assert (a + b)[1..] == a[1..] + b;
      EncodeStep(a);
      EncodeStep(a + b);
      Associative(Pair(a[0]) + [NUL], Encode(a[1..]), Encode(b));
    }
  }

  lemma EncodeNothing()
    ensures Encode([]) == []
  {
  }

  lemma EncodeStep(es: seq<Binding>)
    requires es != []
    ensures Encode(es) == Pair(es[0]) + [NUL] + Encode(es[1..])
  {
  }

  lemma Associative(a: seq<char>, b: seq<char>, c: seq<char>)
    ensures a + (b + c) == a + b + c
  {
  }

  /** Binding `i` stands between the ones before and the ones after it. */
  lemma EncodeAt(es: seq<Binding>, i: nat)
    requires i < |es|
    ensures Encode(es) == Encode(es[..i]) + (Pair(es[i]) + [NUL] + Encode(es[i + 1..]))
    ensures Encode(es[..i + 1]) == Encode(es[..i]) + (Pair(es[i]) + [NUL])
    ensures |Encode(es[..i + 1])| <= |Encode(es)|
  {
    EncodeAppend(es[..i], es[i..]);
    assert es == es[..i] + es[i..] && es[i..][1..] == es[i + 1..];
    EncodeAppend(es[..i], [es[i]]);
    assert es[..i + 1] == es[..i] + [es[i]];
    EncodeStep([es[i]]);
    EncodeNothing();
    assert Pair(es[i]) + [NUL] + [] == Pair(es[i]) + [NUL];
    EncodeAppend(es[..i + 1], es[i + 1..]);
    assert es == es[..i + 1] + es[i + 1..];
  }

  // ---------- Operations on bindings ----------
  // No command checks that a name has no `=`.  A lookup finds the first stored pair that
  // begins with the name and a `=`, which for a name without `=` is the pair of that name.

  predicate Matches(name: seq<char>, b: Binding) {
    name + ['='] <= Pair(b)
  }

  function Find(es: seq<Binding>, name: seq<char>): (r: Option<nat>)
    ensures r.Some? ==> r.value < |es| && Matches(name, es[r.value])
    ensures r.Some? ==> forall i :: 0 <= i < r.value ==> !Matches(name, es[i])
    ensures r.None? ==> forall i :: 0 <= i < |es| ==> !Matches(name, es[i])
  {
    if es == [] then None
    else if Matches(name, es[0]) then Some(0)
    else match Find(es[1..], name)
      case None => None
      case Some(i) => Some(i + 1)
  }

  function Get(es: seq<Binding>, name: seq<char>): Option<seq<char>> {
    match Find(es, name)
    case None => None
    case Some(i) => Some(es[i].value)
  }

  function Without(es: seq<Binding>, name: seq<char>): seq<Binding> {
    match Find(es, name)
    case None => es
    case Some(i) => es[..i] + es[i + 1..]
  }

  /** Where the first `=` stands. */
  function FirstEquals(s: seq<char>): (i: nat)
    ensures i <= |s| && '=' !in s[..i] && (i < |s| ==> s[i] == '=')
  {
    if s == [] || s[0] == '=' then 0 else
      var i := FirstEquals(s[1..]);
      assert s[..i + 1] == [s[0]] + s[1..][..i];
      1 + i
  }

  /** The binding that `name=value` stands for. */
  function Bound(name: seq<char>, value: seq<char>): (b: Binding)
    requires NUL !in name && NUL !in value
    ensures Proper(b) && Pair(b) == name + ['='] + value
    ensures IsName(name) ==> b == Binding(name, value)
  {
    var i := FirstEquals(name);
    if i == |name| then
      assert name[..i] == name;
      Binding(name, value)
    else
      assert name == name[..i] + ['='] + name[i + 1..];
      Binding(name[..i], name[i + 1..] + ['='] + value)
  }

  /** `name` is the name of `b`, a `=`, and then something the value begins with, up to a
      `=`. */
  predicate Reaches(name: seq<char>, b: Binding) {
    b.name + ['='] <= name && name[|b.name| + 1..] + ['='] <= b.value
  }

  /** A name matches the pair of that name, and the pairs it reaches into, and no other. */
  lemma MatchesIff(name: seq<char>, b: Binding)
    requires Proper(b)
    ensures Matches(name, b) <==> name == b.name || Reaches(name, b)
    ensures IsName(name) ==> !Reaches(name, b)
  {
    if Matches(name, b) {
      MatchesOnly(name, b);
    }
    if Reaches(name, b) {
      assert name == (b.name + ['=']) + name[|b.name| + 1..];
      assert name + ['='] == (b.name + ['=']) + (name[|b.name| + 1..] + ['=']);
      assert name[|b.name|] == '=';
    }
  }

  lemma MatchesOnly(name: seq<char>, b: Binding)
    requires Proper(b) && Matches(name, b)
    ensures name == b.name || Reaches(name, b)
  {
    var (n, k, p) := (|b.name|, |name|, Pair(b));
    assert p[..n] == b.name && p[n] == '=' && p[n + 1..] == b.value;
    assert p[..k] == (name + ['='])[..k] == name && p[k] == '=';
    assert forall i :: 0 <= i < n ==> p[i] == b.name[i] != '=';
    if k > n {
      assert name[..n] == p[..n] && name[n] == '=';
      assert name[..n + 1] == b.name + ['='];
      assert name[n + 1..] + ['='] == p[n + 1..k + 1] == p[n + 1..][..k - n];
    }
  }

  /** The lookup of a name without `=`. */
  lemma FindName(es: seq<Binding>, name: seq<char>)
    requires AllProper(es) && IsName(name)
    ensures Find(es, name).Some? ==> es[Find(es, name).value].name == name
    ensures Find(es, name).None? ==> forall i :: 0 <= i < |es| ==> es[i].name != name
  {
    hide Matches;
    forall i | 0 <= i < |es|
      ensures Matches(name, es[i]) <==> es[i].name == name
    {
      MatchesIff(name, es[i]);
    }
  }

  lemma FindUnique(es: seq<Binding>, i: nat)
    requires Store(es) && i < |es|
    ensures Find(es, es[i].name) == Some(i)
  {
    hide Matches;
    MatchesIff(es[i].name, es[i]);
    FindName(es, es[i].name);
  }

  lemma ProperWithout(es: seq<Binding>, name: seq<char>)
    requires AllProper(es)
    ensures AllProper(Without(es, name))
  {
    hide Matches, Proper;
  }

  lemma StoreWithout(es: seq<Binding>, name: seq<char>)
    requires Store(es)
    ensures Store(Without(es, name))
    ensures IsName(name) ==> Find(Without(es, name), name) == None
  {
    hide Matches, Proper;
    ProperWithout(es, name);
    if IsName(name) {
      FindName(es, name);
      FindName(Without(es, name), name);
    }
  }

  lemma StoreAppend(es: seq<Binding>, b: Binding)
    requires Store(es) && Proper(b) && Find(es, b.name) == None
    ensures Store(es + [b])
  {
    hide Matches;
    FindName(es, b.name);
  }

  // ---------- A map ----------

  /** The store as a map from names to values. */
  function AsMap(es: seq<Binding>): map<seq<char>, seq<char>> {
    if es == [] then map[] else AsMap(es[..|es| - 1])[es[|es| - 1].name := es[|es| - 1].value]
  }

  /** In a store with each name once, lookups of names without `=` are membership. */
  lemma GetIff(es: seq<Binding>, n: seq<char>, v: seq<char>)
    requires Store(es) && IsName(n)
    ensures Get(es, n) == Some(v) <==> Binding(n, v) in es
  {
    hide Matches, Proper;
    FindName(es, n);
    if Binding(n, v) in es {
      var i :| 0 <= i < |es| && es[i] == Binding(n, v);
      FindUnique(es, i);
    }
  }

  lemma {:induction false} AsMapIs(es: seq<Binding>)
    requires Store(es)
    ensures forall n :: IsName(n) ==> Get(es, n) == if n in AsMap(es) then Some(AsMap(es)[n]) else None
    ensures forall n :: n in AsMap(es) ==> IsName(n)
    decreases |es|
  {
    hide Get, IsName;
    if es != [] {
      var k := |es| - 1;
      AsMapIs(es[..k]);
      assert IsName(es[k].name) && Store(es[..k]) by { StoreFront(es); }
      forall n | IsName(n)
        ensures Get(es, n) == if n == es[k].name then Some(es[k].value) else Get(es[..k], n)
      {
        GetLast(es, n);
      }
    } else {
      forall n
        ensures Get([], n) == None
      {
        GetNothing(n);
      }
    }
  }

  lemma StoreFront(es: seq<Binding>)
    requires Store(es) && es != []
    ensures Store(es[..|es| - 1]) && Proper(es[|es| - 1])
  {
  }

  lemma GetNothing(n: seq<char>)
    ensures Get([], n) == None
  {
  }

  lemma GetLast(es: seq<Binding>, n: seq<char>)
    requires Store(es) && es != [] && IsName(n)
    ensures var k := |es| - 1;
      Get(es, n) == if n == es[k].name then Some(es[k].value) else Get(es[..k], n)
  {
    hide Get, Store;
    var k := |es| - 1;
    StoreFront(es);
    assert es == es[..k] + [es[k]];
    if n == es[k].name {
      GetIff(es, n, es[k].value);
    } else {
      forall v
        ensures Get(es, n) == Some(v) <==> Get(es[..k], n) == Some(v)
      {
        GetIff(es, n, v);
        GetIff(es[..k], n, v);
      }
      SameOption(Get(es, n), Get(es[..k], n));
    }
  }

  lemma SameOption(a: Option<seq<char>>, b: Option<seq<char>>)
    requires forall v :: a == Some(v) <==> b == Some(v)
    ensures a == b
  {
    if a.Some? {
      assert a == Some(a.value);
    } else if b.Some? {
      assert b == Some(b.value);
    }
  }

  /** Setting with enough memory or without, and unsetting. */
  datatype Op = Set(name: seq<char>, value: seq<char>, memory: bool) | Unset(name: seq<char>)

  /** What the C strings of a command allow. */
  predicate Given(op: Op) {
    NUL !in op.name && (op.Set? ==> NUL !in op.value)
  }

  predicate Legal(op: Op) {
    Given(op) && IsName(op.name)
  }

  /** nsh_setvar removes the binding first and adds the new one at the end; when the buffer
      cannot grow the removal stands. */
  function Apply(es: seq<Binding>, op: Op): seq<Binding>
    requires Given(op)
  {
    match op
    case Set(name, value, memory) => Without(es, name) + (if memory then [Bound(name, value)] else [])
    case Unset(name) => Without(es, name)
  }

  function ApplyToMap(m: map<seq<char>, seq<char>>, op: Op): map<seq<char>, seq<char>> {
    if op.Set? && op.memory then m[op.name := op.value] else m - {op.name}
  }

  lemma ApplyKeepsStore(es: seq<Binding>, op: Op)
    requires Store(es) && Legal(op)
    ensures Store(Apply(es, op))
  {
    StoreWithout(es, op.name);
    if op.Set? && op.memory {
      StoreAppend(Without(es, op.name), Bound(op.name, op.value));
    }
  }

  lemma InWithout(es: seq<Binding>, name: seq<char>, b: Binding)
    requires Store(es)
    ensures b in Without(es, name) <==> b in es && !(Find(es, name).Some? && b == es[Find(es, name).value])
  {
    hide Matches, Proper;
    if Find(es, name).Some? {
      var i := Find(es, name).value;
      assert es == es[..i] + [es[i]] + es[i + 1..];
    }
  }

  /** Removing what a name matches removes the binding it matches, and no other. */
  lemma GetWithout(es: seq<Binding>, name: seq<char>, n: seq<char>)
    requires Store(es) && IsName(n)
    ensures Get(Without(es, name), n) ==
      if Find(es, name).Some? && es[Find(es, name).value].name == n then None else Get(es, n)
    ensures IsName(name) ==> Get(Without(es, name), n) == if name == n then None else Get(es, n)
  {
    hide Get, Without, Matches, Proper;
    StoreWithout(es, name);
    forall v
      ensures Get(Without(es, name), n) == Some(v) <==>
        Get(es, n) == Some(v) && !(Find(es, name).Some? && Binding(n, v) == es[Find(es, name).value])
    {
      GetIff(Without(es, name), n, v);
      GetIff(es, n, v);
      InWithout(es, name, Binding(n, v));
    }
    if Find(es, name).Some? && es[Find(es, name).value].name == n {
      var b := es[Find(es, name).value];
      GetIff(es, n, b.value);
      assert b == Binding(n, b.value);
      assert Get(es, n) == Some(b.value);
      SameOption(Get(Without(es, name), n), None);
    } else {
      SameOption(Get(Without(es, name), n), Get(es, n));
    }
    if IsName(name) {
      NameGone(es, name);
    }
  }

  lemma NameGone(es: seq<Binding>, name: seq<char>)
    requires Store(es) && IsName(name)
    ensures if Find(es, name).Some? then es[Find(es, name).value].name == name else Get(es, name) == None
  {
    FindName(es, name);
  }

  /** Each operation acts on the store as it does on a map: it changes its own name and
      no other, also when memory runs out. */
  lemma ApplyIsMapUpdate(es: seq<Binding>, op: Op)
    requires Store(es) && Legal(op)
    ensures AsMap(Apply(es, op)) == ApplyToMap(AsMap(es), op)
  {
    hide Without, Store;
    var fs := Without(es, op.name);
    MapWithout(es, op.name);
    if op.Set? && op.memory {
      assert Apply(es, op)[..|fs|] == fs;
    } else {
      assert Apply(es, op) == fs;
    }
  }

  lemma MapWithout(es: seq<Binding>, name: seq<char>)
    requires Store(es) && IsName(name)
    ensures AsMap(Without(es, name)) == AsMap(es) - {name}
  {
    hide Without, Store, AsMap, Get, IsName;
    var m, m' := AsMap(es), AsMap(Without(es, name));
    AsMapIs(es);
    StoreWithout(es, name);
    AsMapIs(Without(es, name));
    forall n
      ensures n in m' <==> n in m && n != name
      ensures n in m' ==> m'[n] == m[n]
    {
      if IsName(n) {
        GetWithout(es, name, n);
      }
    }
    assert m'.Keys == m.Keys - {name};
  }

  // ---------- Names with `=` ----------

  /** An operation leaves the visible value of every other name alone. */
  ghost predicate LeavesOthers(es: seq<Binding>, op: Op)
    requires Given(op)
  {
    forall n :: IsName(n) && n != op.name ==> Get(Apply(es, op), n) == Get(es, n)
  }

  /** Exactly when that is so: the name has no `=`; or it is an unset, or a set that finds no
      memory, of a name that matches nothing; or it is a set that adds a second pair of a
      name behind one it does not match, or puts back the pair that was there. */
  ghost predicate Harmless(es: seq<Binding>, op: Op)
    requires Given(op)
  {
    || IsName(op.name)
    || (!(op.Set? && op.memory) && Find(es, op.name).None?)
    || (op.Set? && op.memory
        && var b := Bound(op.name, op.value);
           Get(es, b.name).Some? && (Find(es, op.name).Some? ==> Get(es, b.name) == Some(b.value)))
  }

  lemma FindAppend(fs: seq<Binding>, b: Binding, name: seq<char>)
    ensures Find(fs + [b], name) ==
      if Find(fs, name).Some? then Find(fs, name) else if Matches(name, b) then Some(|fs|) else None
  {
    hide Matches;
    var all := fs + [b];
    var (r, r') := (Find(fs, name), Find(all, name));
    assert all[|fs|] == b && forall k :: 0 <= k < |fs| ==> all[k] == fs[k];
  }

  lemma GetAppend(fs: seq<Binding>, b: Binding, n: seq<char>)
    requires Proper(b) && IsName(n)
    ensures Get(fs + [b], n) ==
      if Get(fs, n).Some? then Get(fs, n) else if n == b.name then Some(b.value) else None
  {
    hide Matches, Find;
    FindAppend(fs, b, n);
    MatchesIff(n, b);
  }

  /** The part of a name before its first `=`. */
  function Head(name: seq<char>): seq<char> {
    name[..FirstEquals(name)]
  }

  lemma HeadOf(name: seq<char>, b: Binding)
    requires Proper(b) && Reaches(name, b)
    ensures b.name == Head(name)
  {
    var i := FirstEquals(name);
    assert name[..|b.name|] == b.name && name[|b.name|] == '=';
    assert forall k :: 0 <= k < |b.name| ==> name[k] == b.name[k] != '=';
    assert forall k :: 0 <= k < i ==> name[k] == name[..i][k] != '=';
  }

  lemma WhetherEquals(name: seq<char>)
    ensures FirstEquals(name) == |name| <==> '=' !in name
  {
    assert name[..|name|] == name;
  }

  /** What a name with `=` finds is a pair of its head. */
  lemma Foreign(es: seq<Binding>, name: seq<char>)
    requires Store(es) && !IsName(name) && NUL !in name
    ensures IsName(Head(name)) && Head(name) != name
    ensures Find(es, name).Some? ==>
      es[Find(es, name).value].name == Head(name) && Get(es, Head(name)).Some?
  {
    hide Matches;
    WhetherEquals(name);
    if Find(es, name).Some? {
      var b := es[Find(es, name).value];
      MatchesIff(name, b);
      assert name == b.name ==> IsName(name);
      HeadOf(name, b);
      GetIff(es, b.name, b.value);
      assert b == Binding(b.name, b.value);
    }
  }

  lemma BoundHead(name: seq<char>, value: seq<char>)
    requires NUL !in name && NUL !in value
    ensures Bound(name, value).name == Head(name)
  {
    assert name[..|name|] == name;
  }

  /** What a lookup of a name without `=` gives after an operation. */
  lemma GetApplied(es: seq<Binding>, op: Op, n: seq<char>)
    requires Store(es) && Given(op) && IsName(n)
    ensures Get(Apply(es, op), n) ==
      var left := if Find(es, op.name).Some? && es[Find(es, op.name).value].name == n then None else Get(es, n);
      if left.None? && op.Set? && op.memory && Bound(op.name, op.value).name == n
      then Some(Bound(op.name, op.value).value) else left
  {
    hide Get, Find, Matches, Without, Bound;
    GetWithout(es, op.name, n);
    if op.Set? && op.memory {
      GetAppend(Without(es, op.name), Bound(op.name, op.value), n);
    } else {
      assert Without(es, op.name) + [] == Without(es, op.name);
    }
  }

  lemma HarmlessIff(es: seq<Binding>, op: Op)
    requires Store(es) && Given(op)
    ensures LeavesOthers(es, op) <==> Harmless(es, op)
  {
    hide Get, Find, Matches, Apply, Bound;
    if op.Set? && !IsName(op.name) {
      BoundHead(op.name, op.value);
    }
    forall n | IsName(n) && n != op.name
      ensures Get(Apply(es, op), n) != Get(es, n) ==> n == Head(op.name) && !Harmless(es, op)
    {
      GetApplied(es, op, n);
      if IsName(op.name) {
        NameGone(es, op.name);
        if op.Set? {
          BoundIs(op);
        }
      } else {
        Foreign(es, op.name);
      }
    }
    if !Harmless(es, op) {
      var n := Head(op.name);
      Foreign(es, op.name);
      GetApplied(es, op, n);
      assert Get(Apply(es, op), n) != Get(es, n);
    }
  }

  lemma BoundIs(op: Op)
    requires Given(op) && IsName(op.name) && op.Set?
    ensures Bound(op.name, op.value) == Binding(op.name, op.value)
  {
  }

  /** One input: with `A=B=C` in the buffer, setting `A=B` removes the variable `A` and
      brings it back with another value. */
  lemma SetWithEquals()
    ensures var es := [Binding("A", "B=C")];
      Store(es) && Apply(es, Set("A=B", "D", true)) == [Binding("A", "B=D")]
  {
    var (es, b) := ([Binding("A", "B=C")], Binding("A", "B=C"));
    assert "A" + ['='] <= "A=B" && "A=B"[2..] == "B" && "B" + ['='] == "B=" <= "B=C";
    MatchesIff("A=B", b);
    assert Find(es, "A=B") == Some(0);
    assert Without(es, "A=B") == [];
    assert FirstEquals("A=B") == 1 by { assert "A=B"[1..] == "=B" && FirstEquals("=B") == 0; }
    assert Bound("A=B", "D") == Binding("A", "B=D");
  }

  // ---------- Runs ----------

  function Run(es: seq<Binding>, ops: seq<Op>): seq<Binding>
    requires forall i :: 0 <= i < |ops| ==> Given(ops[i])
    decreases |ops|
  {
    if ops == [] then es else Apply(Run(es, ops[..|ops| - 1]), ops[|ops| - 1])
  }

  /** The bindings that a history leaves, defined without any store: each successful set
      that no later operation on the same name undoes, in the order of these sets. */
  function Survivors(ops: seq<Op>): seq<Binding> {
    if ops == [] then [] else Survivor(ops[0], ops[1..]) + Survivors(ops[1..])
  }

  /** What is left of `op` after the operations `later`. */
  function Survivor(op: Op, later: seq<Op>): seq<Binding> {
    if op.Set? && op.memory && !Named(later, op.name) then [Binding(op.name, op.value)] else []
  }

  predicate Named(ops: seq<Op>, name: seq<char>) {
    exists i :: 0 <= i < |ops| && ops[i].name == name
  }

  function Drop(es: seq<Binding>, name: seq<char>): seq<Binding> {
    if es == [] then []
    else (if es[0].name == name then [] else [es[0]]) + Drop(es[1..], name)
  }

  lemma {:induction false} DropAppend(a: seq<Binding>, b: seq<Binding>, name: seq<char>)
    ensures Drop(a + b, name) == Drop(a, name) + Drop(b, name)
  {
    if a == [] {
      assert a + b == b;
    } else {
      assert (a + b)[1..] == a[1..] + b;
      DropAppend(a[1..], b, name);
    }
  }

  lemma {:induction false} DropNothing(es: seq<Binding>, name: seq<char>)
    requires forall i :: 0 <= i < |es| ==> es[i].name != name
    ensures Drop(es, name) == es
  {
    if es != [] {
      DropNothing(es[1..], name);
    }
  }

  lemma DropIsWithout(es: seq<Binding>, name: seq<char>)
    requires Store(es) && IsName(name)
    ensures Drop(es, name) == Without(es, name)
  {
    hide Matches, Drop;
    FindName(es, name);
    match Find(es, name)
    case None => DropNothing(es, name);
    case Some(i) =>
      assert es == es[..i] + es[i..];
      DropAppend(es[..i], es[i..], name);
      DropNothing(es[..i], name);
      DropFirst(es[i..], name);
  }

  lemma DropFirst(es: seq<Binding>, name: seq<char>)
    requires es != [] && es[0].name == name && forall j :: 0 < j < |es| ==> es[j].name != name
    ensures Drop(es, name) == es[1..]
  {
    DropNothing(es[1..], name);
  }

  lemma NamedAppend(ops: seq<Op>, op: Op, name: seq<char>)
    ensures Named(ops + [op], name) <==> Named(ops, name) || op.name == name
  {
    var all := ops + [op];
    if Named(ops, name) {
      var i :| 0 <= i < |ops| && ops[i].name == name;
      assert all[i].name == name;
    }
    assert all[|ops|] == op;
  }

  lemma SurvivorAppend(o: Op, later: seq<Op>, op: Op)
    ensures Survivor(o, later + [op]) == Drop(Survivor(o, later), op.name)
  {
    hide Named;
    NamedAppend(later, op, o.name);
    if Survivor(o, later) != [] {
      assert Survivor(o, later)[1..] == [];
    }
  }

  /** One more operation drops the survivor of its name and may add one at the end. */
  lemma {:induction false} SurvivorsAppend(ops: seq<Op>, op: Op)
    ensures Survivors(ops + [op]) == Drop(Survivors(ops), op.name) + Survivor(op, [])
    decreases |ops|
  {
    hide Survivor, Drop;
    if ops == [] {
      assert ops + [op] == [op] && [op][1..] == [];
      assert Drop([], op.name) == [] by { DropNothing([], op.name); }
    } else {
      SurvivorsAppend(ops[1..], op);
      assert (ops + [op])[1..] == ops[1..] + [op];
      SurvivorAppend(ops[0], ops[1..], op);
      DropAppend(Survivor(ops[0], ops[1..]), Survivors(ops[1..]), op.name);
    }
  }

  lemma {:induction false} RunKeepsStore(ops: seq<Op>)
    requires forall i :: 0 <= i < |ops| ==> Given(ops[i]) && IsName(ops[i].name)
    ensures Store(Run([], ops))
    decreases |ops|
  {
    if ops != [] {
      RunKeepsStore(ops[..|ops| - 1]);
      ApplyKeepsStore(Run([], ops[..|ops| - 1]), ops[|ops| - 1]);
    }
  }

  /** After any history the buffer holds exactly the surviving bindings, in the order in
      which they were last set. */
  lemma {:induction false} RunIsSurvivors(ops: seq<Op>)
    requires forall i :: 0 <= i < |ops| ==> Given(ops[i]) && IsName(ops[i].name)
    ensures Run([], ops) == Survivors(ops)
    decreases |ops|
  {
    hide Survivors, Drop, Store, IsName, Without;
    if ops == [] {
      NoSurvivors();
    } else {
      var before, op := ops[..|ops| - 1], ops[|ops| - 1];
      RunIsSurvivors(before);
      RunKeepsStore(before);
      DropIsWithout(Survivors(before), op.name);
      SurvivorsAppend(before, op);
      assert ops == before + [op];
      LastSurvives(op, Survivors(before));
    }
  }

  lemma NoSurvivors()
    ensures Survivors([]) == []
  {
  }

  lemma LastSurvives(op: Op, es: seq<Binding>)
    requires Given(op) && IsName(op.name)
    ensures Apply(es, op) == Without(es, op.name) + Survivor(op, [])
  {
    assert !Named([], op.name);
  }
}
