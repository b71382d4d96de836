/** The store of shell variables in its buffer (struct console_stdio_s: varp, varsz). */
module VariableStore {
  import opened Wrappers
  import opened CStrings
  import opened Variables

  /** Character `k` of a C string given by its text. */
  function CharAt(s: seq<char>, k: nat): char {
    if k < |s| then s[k] else NUL
  }

  /** nsh_cmpname runs on while the two strings agree.  It stops inside both, terminators
      included, exactly when they differ; a name without `=` differs from every pair. */
  lemma StopsInside(name: seq<char>, pair: seq<char>)
    requires NUL !in name && NUL !in pair
    ensures (exists k: nat :: k <= |name| && k <= |pair| && CharAt(name, k) != CharAt(pair, k)) <==> name != pair
    ensures '=' !in name && '=' in pair ==> name != pair
  {
    var m := if |name| < |pair| then |name| else |pair|;
    if name != pair && forall k :: 0 <= k < m ==> name[k] == pair[k] {
      assert CharAt(name, m) != CharAt(pair, m);
    } else if name != pair {
      var k :| 0 <= k < m && name[k] != pair[k];
      assert CharAt(name, k) != CharAt(pair, k);
    }
  }

  /** A lookup compares the name with one pair after the other, up to the first match.  It
      never leaves the strings when none of the pairs on the way is the name itself. */
  ghost predicate StaysInside(es: seq<Binding>, name: seq<char>) {
    forall i :: 0 <= i < |es| && (forall j :: 0 <= j < i ==> !Matches(name, es[j])) ==> Pair(es[i]) != name
  }

  lemma NamesStayInside(es: seq<Binding>, name: seq<char>)
    requires IsName(name)
    ensures StaysInside(es, name)
  {
    forall i | 0 <= i < |es|
      ensures Pair(es[i]) != name
    {
      assert Pair(es[i])[|es[i].name|] == '=';
    }
  }

  /** One input: after `set A 1`, the lookup of `A=1` agrees with the stored pair up to and
      including both terminators, and reads on. */
  lemma RunsPastTheEnd()
    ensures var es := Apply([], Set("A", "1", true));
      Store(es) && !StaysInside(es, "A=1")
      && forall k: nat :: k <= |"A=1"| ==> CharAt("A=1", k) == CharAt(Pair(es[0]), k)
  {
    var b := Bound("A", "1");
    assert Pair(b) == "A=1" && Apply([], Set("A", "1", true)) == [b];
    assert Pair([b][0]) == "A=1";
  }

  /** The pair of binding `b` stands at `ptr`. */
  ghost predicate PairAt(buf: seq<char>, ptr: nat, b: Binding) {
    ptr + |Pair(b)| < |buf| && buf[ptr..ptr + |Pair(b)|] == Pair(b) && buf[ptr + |Pair(b)|] == NUL
  }

  lemma PairChars(buf: seq<char>, ptr: nat, b: Binding)
    requires PairAt(buf, ptr, b) && Proper(b)
    ensures Ends(buf, ptr, ptr + |Pair(b)|)
    ensures forall k :: 0 <= k < |b.name| ==> buf[ptr + k] == b.name[k]
    ensures forall k :: ptr <= k < ptr + |b.name| ==> buf[k] != '='
    ensures ptr + |b.name| < |buf| && buf[ptr + |b.name|] == '='
    ensures buf[ptr + |b.name| + 1..ptr + |Pair(b)|] == b.value
  {
    var p := buf[ptr..ptr + |Pair(b)|];
    assert forall k :: 0 <= k < |p| ==> buf[ptr + k] == p[k];
    assert p[|b.name| + 1..] == b.value;
    forall k | ptr <= k < ptr + |Pair(b)|
      ensures buf[k] != NUL && (k < ptr + |b.name| ==> buf[k] != '=')
    {
      assert buf[k] == p[k - ptr];
    }
  }

  /** Pair `i` of an encoded store. */
  lemma PairInside(buf: seq<char>, es: seq<Binding>, i: nat)
    requires |Encode(es)| <= |buf| && buf[..|Encode(es)|] == Encode(es) && i < |es|
    ensures PairAt(buf, |Encode(es[..i])|, es[i])
    ensures |Encode(es[..i + 1])| == |Encode(es[..i])| + |Pair(es[i])| + 1 <= |Encode(es)|
  {
    hide Encode, Pair;
    EncodeAt(es, i);
    var a, p, z := Encode(es[..i]), Pair(es[i]) + [NUL], Encode(es[i + 1..]);
    assert Encode(es)[|a|..|a| + |p|] == p;
    assert buf[|a|..|a| + |p|] == buf[..|Encode(es)|][|a|..|a| + |p|];
    assert buf[|a|..|a| + |p|][..|p| - 1] == buf[|a|..|a| + |p| - 1];
  }

  /** A walk that stands at the start of pair `i`, before the end. */
  lemma PairNext(buf: seq<char>, es: seq<Binding>, i: nat, ptr: nat)
    requires AllProper(es) && |Encode(es)| <= |buf| && buf[..|Encode(es)|] == Encode(es)
    requires i <= |es| && ptr == |Encode(es[..i])| < |Encode(es)|
    ensures i < |es| && PairAt(buf, ptr, es[i])
    ensures var n := |Pair(es[i])|;
      && Ends(buf, ptr, ptr + n) && buf[ptr..ptr + n] == Pair(es[i])
      && ptr + n + 1 == |Encode(es[..i + 1])| <= |Encode(es)|
  {
    hide Encode, Pair;
    BeforeEnd(es, i);
    PairInside(buf, es, i);
    PairChars(buf, ptr, es[i]);
  }

  /** nsh_cmpname, on the pair at `ptr`. */
  method CmpName(name: seq<char>, buf: array<char>, ptr: nat, ghost b: Binding) returns (same: bool)
    requires NUL !in name && Proper(b) && PairAt(buf[..], ptr, b) && Pair(b) != name
    ensures same <==> Matches(name, b)
  {
    ghost var p := Pair(b);
    assert forall k :: 0 <= k < |p| ==> buf[ptr + k] == buf[ptr..ptr + |p|][k] == p[k];
    var k := 0;
    while CharAt(name, k) == buf[ptr + k]
      invariant k <= |name| && k <= |p| && name[..k] == p[..k]
      decreases |name| - k
    {
      assert k < |name| || k < |p|;
      assert name[..k + 1] == name[..k] + [name[k]] && p[..k + 1] == p[..k] + [p[k]];
      k := k + 1;
    }
    same := k == |name| && buf[ptr + k] == '=';
    StoppedAt(name, b, k);
  }

  /** Where two strings that agree up to `k` stop agreeing. */
  lemma StoppedAt(name: seq<char>, b: Binding, k: nat)
    requires Proper(b) && NUL !in name && k <= |name| && k <= |Pair(b)| && name[..k] == Pair(b)[..k]
    requires CharAt(name, k) != CharAt(Pair(b), k)
    ensures k == |name| && CharAt(Pair(b), k) == '=' <==> Matches(name, b)
  {
    var p := Pair(b);
    if k == |name| && k < |p| && p[k] == '=' {
      assert p[..k + 1] == p[..k] + ['='];
    }
    if Matches(name, b) {
      assert p[..|name| + 1] == name + ['='];
      assert forall i :: 0 <= i < |name| ==> p[i] == (name + ['='])[i] == name[i];
      assert p[|name|] == '=';
    }
  }

  class Console {
    var varp: array?<char>
    var varsz: nat
    ghost var es: seq<Binding>

    ghost predicate Valid()
      reads this, varp
    {
      && AllProper(es) && varsz == |Encode(es)|
      && (varp == null ==> varsz == 0)
      && (varp != null ==> varsz <= varp.Length && varp[..varsz] == Encode(es))
    }

    constructor ()
      ensures Valid() && es == []
    {
      varp, varsz, es := null, 0, [];
    }

    /** nsh_findvar: the offset of the pair. */
    method FindVar(name: seq<char>) returns (found: bool, ptr: nat)
      requires Valid() && NUL !in name && StaysInside(es, name)
      ensures found <==> Find(es, name).Some?
      ensures found ==> varp != null && ptr == |Encode(es[..Find(es, name).value])| < varsz
    {
      hide Encode, Pair, Matches, Proper, PairAt, Find;
      ptr := 0;
      ghost var i := 0;
      assert es[..0] == [] && es[..|es|] == es;
      EncodeNothing();
      if varp == null {
        EmptyStore(es);
        return false, 0;
      }
      while ptr < varsz
        invariant 0 <= i <= |es| && ptr == |Encode(es[..i])| <= varsz
        invariant forall j :: 0 <= j < i ==> !Matches(name, es[j])
        decreases varsz - ptr
      {
        PairNext(varp[..], es, i, ptr);
        var same := CmpName(name, varp, ptr, es[i]);
        if same {
          return true, ptr;
        }
        var len := StrLen(varp, ptr, ptr + |Pair(es[i])|);
        ptr := ptr + len + 1;
        i := i + 1;
      }
      if i < |es| {
        PairInside(varp[..], es, i);
      }
      return false, 0;
    }

    /** nsh_removevar: move everything after the pair down. */
    method RemoveVar(ptr: nat, ghost i: nat)
      requires Valid() && varp != null && i < |es| && ptr == |Encode(es[..i])|
      modifies this`varsz, this`es, varp
      ensures Valid() && es == old(es[..i] + es[i + 1..])
    {
      hide Encode, Pair, Proper, PairAt;
      PairInside(varp[..], es, i);
      PairChars(varp[..], ptr, es[i]);
      var len := StrLen(varp, ptr, ptr + |Pair(es[i])|);
      len := len + 1;
      ghost var was := varp[..varsz];
      var count := varsz - (ptr + len);
      ShiftDown(varp, ptr, len, count);
      Removed(es, i, was, varp[..varsz - len], ptr, len);
      varsz := varsz - len;
      es := es[..i] + es[i + 1..];
    }

    /** nsh_getvar. */
    method GetVar(name: seq<char>) returns (value: Option<seq<char>>)
      requires Valid() && NUL !in name && StaysInside(es, name)
      ensures value == Get(es, name)
    {
      hide Encode, Pair, Matches, Proper, PairAt;
      var found, ptr := FindVar(name);
      if !found {
        return None;
      }
      ghost var b := es[Find(es, name).value];
      PairInside(varp[..], es, Find(es, name).value);
      PairChars(varp[..], ptr, b);
      var eq := ptr;
      while varp[eq] != '='
        invariant ptr <= eq <= ptr + |b.name|
        decreases ptr + |b.name| - eq
      {
        eq := eq + 1;
      }
      EqualsAt(varp[..], ptr, b, eq);
      var len := StrLen(varp, eq + 1, ptr + |Pair(b)|);
      value := Some(varp[eq + 1..eq + 1 + len]);
    }

    /** nsh_setvar.  `memory` is whether the buffer can be had. */
    method SetVar(name: seq<char>, value: seq<char>, memory: bool) returns (ok: bool)
      requires Valid() && NUL !in name && NUL !in value && StaysInside(es, name)
      modifies this, varp
      ensures Valid() && es == Apply(old(es), Set(name, value, memory)) && ok == memory
      ensures varp == old(varp) || fresh(varp)
    {
      if varp != null {
        var found, pair := FindVar(name);
        if found {
          RemoveVar(pair, Find(es, name).value);
        }
      } else {
        EmptyStore(es);
      }
      assert es == Without(old(es), name) && varp == old(varp);
      ProperWithout(old(es), name);
      if !memory {
        return false;
      }
      ok := AddVar(name, value);
    }

    /** The second half of nsh_setvar: a larger buffer, and the pair at its end. */
    method AddVar(name: seq<char>, value: seq<char>) returns (ok: bool)
      requires Valid() && NUL !in name && NUL !in value
      modifies this
      ensures Valid() && es == old(es) + [Bound(name, value)] && ok
      ensures fresh(varp)
    {
      hide Encode, Pair, Proper, Bound;
      ghost var b := Bound(name, value);
      var varlen := |name| + |value| + 2;
      var newvarp: array<char>;
      if varp != null {
        newvarp := Realloc(varp, varsz, varsz + varlen);
      } else {
        newvarp := new char[varlen];
      }
      assert newvarp[..varsz] == Encode(es);
      WriteAt(newvarp, varsz, name + ['='] + value + [NUL]);
      EncodeAppend(es, [b]);
      EncodeOne(b);
      assert newvarp[..] == newvarp[..varsz] + newvarp[varsz..varsz + varlen];
      varp, varsz, es := newvarp, varsz + varlen, es + [b];
      return true;
    }

    /** nsh_unsetvar.  `memory` is whether the buffer can be moved when it shrinks. */
    method UnsetVar(name: seq<char>, memory: bool) returns (ok: bool)
      requires Valid() && NUL !in name && StaysInside(es, name)
      modifies this, varp
      ensures Valid() && es == Apply(old(es), Unset(name))
      ensures !ok <==> !memory && Find(old(es), name).Some? && es != []
      ensures varp == old(varp) || varp == null || fresh(varp)
    {
      var found, pair := FindVar(name);
      ProperWithout(es, name);
      if !found {
        return true;
      }
      RemoveVar(pair, Find(es, name).value);
      if varsz <= 0 {
        EmptyStore(es);
        varp := null;
        return true;
      }
      if !memory {
        return false;
      }
      varp := Realloc(varp, varsz, varsz);
      return true;
    }

    /** nsh_foreach_var, with a callback that may end the walk: `stop(k, pair)`. */
    method ForEach(stop: (nat, seq<char>) -> bool) returns (visited: seq<seq<char>>, stopped: bool)
      requires Valid()
      ensures |visited| <= |es| && forall k :: 0 <= k < |visited| ==> visited[k] == Pair(es[k])
      ensures forall k :: 0 <= k < |visited| - 1 ==> !stop(k, visited[k])
      ensures stopped ==> visited != [] && stop(|visited| - 1, visited[|visited| - 1])
      ensures !stopped ==> |visited| == |es| && forall k :: 0 <= k < |es| ==> !stop(k, Pair(es[k]))
    {
      hide Pair, Encode, Proper, PairAt;
      visited := [];
      var ptr := 0;
      assert es[..0] == [] && es[..|es|] == es;
      EncodeNothing();
      if varp == null {
        EmptyStore(es);
        return visited, false;
      }
      while ptr < varsz
        invariant |visited| <= |es| && ptr == |Encode(es[..|visited|])| <= varsz
        invariant forall k :: 0 <= k < |visited| ==> visited[k] == Pair(es[k]) && !stop(k, visited[k])
        decreases varsz - ptr
      {
        ghost var i := |visited|;
        PairNext(varp[..], es, i, ptr);
        var len := StrLen(varp, ptr, ptr + |Pair(es[i])|);
        visited := visited + [varp[ptr..ptr + len]];
        if stop(|visited| - 1, visited[|visited| - 1]) {
          return visited, true;
        }
        ptr := ptr + len + 1;
      }
      if |visited| < |es| {
        PairInside(varp[..], es, |visited|);
      }
      return visited, false;
    }
  }

  lemma EqualsAt(buf: seq<char>, ptr: nat, b: Binding, eq: nat)
    requires PairAt(buf, ptr, b) && Proper(b) && ptr <= eq <= ptr + |b.name| && buf[eq] == '='
    ensures eq == ptr + |b.name| < ptr + |Pair(b)| && Ends(buf, eq + 1, ptr + |Pair(b)|)
    ensures buf[eq + 1..ptr + |Pair(b)|] == b.value
  {
    PairChars(buf, ptr, b);
  }

  lemma EncodeOne(b: Binding)
    ensures Encode([b]) == Pair(b) + [NUL]
  {
    assert Encode([b][1..]) == [];
  }

  /** Taking the bytes of pair `i` out of an encoding. */
  lemma Removed(es: seq<Binding>, i: nat, was: seq<char>, now: seq<char>, ptr: nat, len: nat)
    requires AllProper(es) && i < |es| && was == Encode(es) && ptr == |Encode(es[..i])| && len == |Pair(es[i])| + 1
    requires ptr + len <= |was| && now == was[..ptr] + was[ptr + len..]
    ensures AllProper(es[..i] + es[i + 1..]) && now == Encode(es[..i] + es[i + 1..])
  {
    hide Encode, Pair, Proper;
    EncodeAt(es, i);
    EncodeAppend(es[..i], es[i + 1..]);
    var a, p, z := Encode(es[..i]), Pair(es[i]) + [NUL], Encode(es[i + 1..]);
    assert was[..ptr] == a && was[ptr + len..] == z;
  }

  /** The loop of nsh_removevar. */
  method ShiftDown(buf: array<char>, dest: nat, len: nat, count: nat)
    requires dest + len + count <= buf.Length && len > 0
    modifies buf
    ensures buf[..dest + count] == old(buf[..dest] + buf[dest + len..dest + len + count])
  {
    ghost var was := buf[..];
    for k := 0 to count
      invariant forall j :: 0 <= j < dest ==> buf[j] == was[j]
      invariant forall j :: dest <= j < dest + k ==> buf[j] == was[j + len]
      invariant forall j :: dest + k <= j < buf.Length ==> buf[j] == was[j]
    {
      buf[dest + k] := buf[dest + len + k];
    }
    Shifted(was, buf[..], dest, len, count);
  }

  lemma Shifted(was: seq<char>, now: seq<char>, dest: nat, len: nat, count: nat)
    requires |now| == |was| && dest + len + count <= |was|
    requires forall j :: 0 <= j < dest ==> now[j] == was[j]
    requires forall j :: dest <= j < dest + count ==> now[j] == was[j + len]
    ensures now[..dest + count] == was[..dest] + was[dest + len..dest + len + count]
  {
  }

  /** realloc, when it succeeds. */
  method Realloc(buf: array<char>, keep: nat, size: nat) returns (r: array<char>)
    requires keep <= size && keep <= buf.Length
    ensures fresh(r) && r.Length == size && r[..keep] == buf[..keep]
  {
    r := new char[size];
    for k := 0 to keep
      invariant r[..k] == buf[..k]
    {
      r[k] := buf[k];
    }
  }

  method WriteAt(buf: array<char>, at: nat, text: seq<char>)
    requires at + |text| <= buf.Length
    modifies buf
    ensures buf[..at] == old(buf[..at]) && buf[at..at + |text|] == text
  {
    for k := 0 to |text|
      invariant buf[..at] == old(buf[..at]) && buf[at..at + k] == text[..k]
    {
      buf[at + k] := text[k];
    }
  }

  lemma EmptyStore(es: seq<Binding>)
    requires |Encode(es)| == 0
    ensures es == []
  {
  }

  lemma BeforeEnd(es: seq<Binding>, i: nat)
    requires i <= |es| && |Encode(es[..i])| < |Encode(es)|
    ensures i < |es|
  {
    assert es[..|es|] == es;
  }

  method StrLen(buf: array<char>, ptr: nat, ghost e: nat) returns (len: nat)
    requires Ends(buf[..], ptr, e)
    ensures len == e - ptr
  {
    len := 0;
    while buf[ptr + len] != NUL
      invariant ptr + len <= e
      decreases e - ptr - len
    {
      len := len + 1;
    }
  }
}
