/** Run-length encoding of a row of pixels (bitmap_converter.py). */
module RunLength {
  import opened Wrappers

  datatype Rgb = Rgb(r: int, g: int, b: int)

  // ---------- Nearest colour ----------

  function Square(x: int): nat {
    x * x
  }

  function Distance(a: Rgb, b: Rgb): nat {
    Square(a.r - b.r) + Square(a.g - b.g) + Square(a.b - b.b)
  }

  /** list.index: the first place that holds `c`. */
  function Index(palette: seq<Rgb>, c: Rgb): (r: nat)
    requires c in palette
    ensures r < |palette| && palette[r] == c && forall k :: 0 <= k < r ==> palette[k] != c
  {
    if palette[0] == c then 0 else 1 + Index(palette[1..], c)
  }

  /** min with a key: the first entry at the least distance. */
  function Nearest(palette: seq<Rgb>, c: Rgb): (r: Rgb)
    requires palette != []
    ensures r in palette
  {
    if |palette| == 1 then palette[0]
    else
      var best := Nearest(palette[1..], c);
      if Distance(c, palette[0]) <= Distance(c, best) then palette[0] else best
  }

  function Quantize(c: Rgb, palette: seq<Rgb>): (r: nat)
    requires palette != []
    ensures r < |palette|
  {
    if c in palette then Index(palette, c) else Index(palette, Nearest(palette, c))
  }

  lemma DistanceZero(a: Rgb, b: Rgb)
    ensures Distance(a, b) == 0 <==> a == b
  {
  }

  /** Comparing these is comparing the distances of colours in space, `da` of `a` and `db` of
      `b` from `c`. */
  lemma DistanceIsEuclidean(a: Rgb, b: Rgb, c: Rgb, da: real, db: real)
    requires da >= 0.0 && db >= 0.0
    requires da * da ==
      ((a.r - c.r) * (a.r - c.r) + (a.g - c.g) * (a.g - c.g) + (a.b - c.b) * (a.b - c.b)) as real
    requires db * db ==
      ((b.r - c.r) * (b.r - c.r) + (b.g - c.g) * (b.g - c.g) + (b.b - c.b) * (b.b - c.b)) as real
    ensures Distance(c, a) <= Distance(c, b) <==> da <= db
  {
    SquaresCompare(da, db);
    SameSquare(c.r, a.r);
    SameSquare(c.g, a.g);
    SameSquare(c.b, a.b);
    SameSquare(c.r, b.r);
    SameSquare(c.g, b.g);
    SameSquare(c.b, b.b);
    hide Square;
  }

  lemma SameSquare(x: int, y: int)
    ensures Square(x - y) == (y - x) * (y - x)
  {
  }

  lemma SquaresCompare(x: real, y: real)
    requires x >= 0.0 && y >= 0.0
    ensures x <= y <==> x * x <= y * y
  {
    assert y * y - x * x == (y - x) * (y + x);
    if x < y {
      Positive(y - x, y + x);
    } else if y < x {
      Positive(x - y, y + x);
    }
  }

  lemma Positive(a: real, b: real)
    requires a > 0.0 && b > 0.0
    ensures a * b > 0.0
  {
  }

  /** Nearest is the first entry at its distance, and no entry is nearer. */
  lemma {:induction false} NearestIs(palette: seq<Rgb>, c: Rgb)
    requires palette != []
    ensures var n := Nearest(palette, c);
      && (forall k :: 0 <= k < |palette| ==> Distance(c, n) <= Distance(c, palette[k]))
      && (forall k :: 0 <= k < Index(palette, n) ==> Distance(c, n) < Distance(c, palette[k]))
    decreases |palette|
  {
    if |palette| > 1 {
      NearestIs(palette[1..], c);
      var n, rest := Nearest(palette, c), palette[1..];
      forall k | 0 <= k < |palette|
        ensures Distance(c, n) <= Distance(c, palette[k])
      {
        assert k > 0 ==> palette[k] == rest[k - 1];
      }
      if n != palette[0] {
        forall k | 0 <= k < Index(palette, n)
          ensures Distance(c, n) < Distance(c, palette[k])
        {
          assert k > 0 ==> palette[k] == rest[k - 1];
        }
      }
    }
  }

  /** Both branches of quantize give the leftmost of the nearest palette entries. */
  lemma QuantizeIsLeftmostNearest(c: Rgb, palette: seq<Rgb>)
    requires palette != []
    ensures var r := Quantize(c, palette);
      && (forall k :: 0 <= k < |palette| ==> Distance(c, palette[r]) <= Distance(c, palette[k]))
      && (forall k :: 0 <= k < r ==> Distance(c, palette[r]) < Distance(c, palette[k]))
  {
    NearestIs(palette, c);
    if c in palette {
      forall k | 0 <= k < Index(palette, c)
        ensures Distance(c, palette[k]) > 0
      {
        DistanceZero(c, palette[k]);
      }
      DistanceZero(c, c);
    }
  }

  // ---------- Runs ----------

  const MAX_RUN := 255

  datatype Run = Run(repeats: nat, color: nat)

  predicate ValidRuns(es: seq<Run>) {
    forall i :: 0 <= i < |es| ==> 1 <= es[i].repeats <= 255
  }

  function Repeat(color: nat, n: nat): seq<nat> {
    seq(n, _ => color)
  }

  function Decode(es: seq<Run>): seq<nat> {
    if es == [] then [] else Repeat(es[0].color, es[0].repeats) + Decode(es[1..])
  }

  /** A run is followed by one of its own colour only if it is full. */
  predicate Tight(es: seq<Run>) {
    forall i :: 0 <= i < |es| - 1 ==> es[i].color == es[i + 1].color ==> es[i].repeats == MAX_RUN
  }

  lemma {:induction false} DecodeAppend(a: seq<Run>, b: seq<Run>)
    ensures Decode(a + b) == Decode(a) + Decode(b)
  {
    if a == [] {
      assert a + b == b;
    } else {
      assert (a + b)[1..] == a[1..] + b;
      DecodeAppend(a[1..], b);
    }
  }

  lemma DecodeOne(e: Run)
    ensures Decode([e]) == Repeat(e.color, e.repeats)
  {
    assert Decode([e][1..]) == [];
  }

  /** How many equal colours a row begins with, up to `cap`. */
  function Lead(s: seq<nat>, cap: nat): (n: nat)
    ensures n <= cap && n <= |s|
    ensures s != [] && cap > 0 ==> n >= 1
    ensures forall i :: 0 <= i < n ==> s[i] == s[0]
    ensures n < cap && n < |s| ==> s[n] != s[0]
    decreases cap
  {
    if s == [] || cap == 0 then 0
    else if |s| > 1 && cap > 1 && s[1] == s[0] then 1 + Lead(s[1..], cap - 1)
    else 1
  }

  /** How many runs the greedy encoding of a row has. */
  function GreedyCount(s: seq<nat>): nat
    decreases |s|
  {
    if s == [] then 0 else 1 + GreedyCount(s[Lead(s, MAX_RUN)..])
  }

  /** The number `n` is the lead of `s` if it has all its properties. */
  lemma LeadIs(s: seq<nat>, n: nat)
    requires 1 <= n <= MAX_RUN && n <= |s| && forall i :: 0 <= i < n ==> s[i] == s[0]
    requires n < MAX_RUN && n < |s| ==> s[n] != s[0]
    ensures Lead(s, MAX_RUN) == n
  {
    var m := Lead(s, MAX_RUN);
  }

  /** Dropping the first pixel never makes the greedy encoding longer. */
  lemma {:induction false} GreedyShrinks(s: seq<nat>)
    requires s != []
    ensures GreedyCount(s[1..]) <= GreedyCount(s)
    decreases |s|
  {
    hide Lead;
    var m := Lead(s, MAX_RUN);
    var t := s[1..];
    if m == 1 {
    } else if m < MAX_RUN || m == |s| || s[m] != s[0] {
      forall i | 0 <= i < m - 1
        ensures t[i] == t[0]
      {
        assert t[i] == s[i + 1];
      }
      LeadIs(t, m - 1);
      assert t[m - 1..] == s[m..];
    } else {
      forall i | 0 <= i < m
        ensures t[i] == t[0]
      {
        assert t[i] == s[i + 1];
      }
      LeadIs(t, m);
      assert t[m..] == s[m..][1..];
      GreedyShrinks(s[m..]);
    }
  }

  lemma {:induction false} GreedyShrinksBy(s: seq<nat>, n: nat)
    requires n <= |s|
    ensures GreedyCount(s[n..]) <= GreedyCount(s)
    decreases n
  {
    if n == 0 {
      assert s[n..] == s;
    } else {
      GreedyShrinksBy(s, n - 1);
      GreedyShrinks(s[n - 1..]);
      assert s[n - 1..][1..] == s[n..];
    }
  }

  lemma FirstRun(es: seq<Run>)
    requires ValidRuns(es) && es != []
    ensures var (s, k) := (Decode(es), es[0].repeats);
      1 <= k <= Lead(s, MAX_RUN) && s[k..] == Decode(es[1..]) && ValidRuns(es[1..])
  {
    hide Lead;
    var s, k := Decode(es), es[0].repeats;
    assert forall i :: 0 <= i < k ==> s[i] == es[0].color;
    var m := Lead(s, MAX_RUN);
  }

  /** Taking fewer pixels than the lead leaves at least as much to encode. */
  lemma GreedyTakesMost(s: seq<nat>, k: nat)
    requires s != [] && k <= Lead(s, MAX_RUN)
    ensures GreedyCount(s) <= 1 + GreedyCount(s[k..])
  {
    hide Lead;
    var m := Lead(s, MAX_RUN);
    GreedyShrinksBy(s[k..], m - k);
    assert s[k..][m - k..] == s[m..];
  }

  /** No valid encoding is shorter than the greedy one. */
  lemma {:induction false} GreedyIsLeast(es: seq<Run>)
    requires ValidRuns(es)
    ensures GreedyCount(Decode(es)) <= |es|
    decreases |es|
  {
    hide Lead;
    if es != [] {
      FirstRun(es);
      GreedyIsLeast(es[1..]);
      GreedyTakesMost(Decode(es), es[0].repeats);
    }
  }

  /** A tight encoding is the greedy one. */
  lemma {:induction false} TightIsGreedy(es: seq<Run>)
    requires ValidRuns(es) && Tight(es)
    ensures GreedyCount(Decode(es)) == |es|
    decreases |es|
  {
    if es != [] {
      var s, k := Decode(es), es[0].repeats;
      var rest := es[1..];
      assert s[k..] == Decode(rest);
      forall i | 0 <= i < |rest| - 1
        ensures rest[i].color == rest[i + 1].color ==> rest[i].repeats == MAX_RUN
      {
        assert rest[i] == es[i + 1] && rest[i + 1] == es[(i + 1) + 1];
      }
      TightIsGreedy(rest);
      if rest != [] && k < MAX_RUN {
        assert s[k] == Decode(rest)[0] == rest[0].color;
      }
      LeadIs(s, k);
    }
  }

  // ---------- encode_row ----------

  function Quantized(row: seq<Rgb>, palette: seq<Rgb>): seq<nat>
    requires palette != []
  {
    seq(|row|, x requires 0 <= x < |row| => Quantize(row[x], palette))
  }

  /** encode_row: correct, within the limits of an entry, and of least length. */
  method EncodeRow(row: seq<Rgb>, palette: seq<Rgb>) returns (entries: seq<Run>)
    requires palette != []
    ensures ValidRuns(entries) && Decode(entries) == Quantized(row, palette)
    ensures forall es: seq<Run> :: ValidRuns(es) && Decode(es) == Quantized(row, palette) ==> |entries| <= |es|
  {
    hide Decode, Quantize, Tight, ValidRuns;
    entries := [];
    var color: Option<nat> := None;
    var repeats: nat := 0;
    for x := 0 to |row|
      invariant color.None? ==> x == 0 && entries == []
      invariant color.Some? ==>
        var all := entries + [Run(repeats, color.value)];
        ValidRuns(all) && Tight(all) && Decode(all) == Quantized(row[..x], palette)
    {
      var c := Quantize(row[x], palette);
      assert Quantized(row[..x + 1], palette) == Quantized(row[..x], palette) + [c];
      if color == Some(c) && repeats < MAX_RUN {
        Longer(entries, repeats, c);
        repeats := repeats + 1;
      } else {
        if color.Some? {
          LastFits(entries, Run(repeats, color.value));
          Another(entries, Run(repeats, color.value), c);
          entries := entries + [Run(repeats, color.value)];
        } else {
          First(c);
          assert [] + [Run(1, c)] == [Run(1, c)] && Quantized([], palette) == [];
        }
        repeats := 1;
        color := Some(c);
      }
    }
    assert row[..|row|] == row;
    if color.Some? {
      entries := entries + [Run(repeats, color.value)];
    } else {
      NoRuns();
    }
    TightIsGreedy(entries);
    forall es: seq<Run> | ValidRuns(es) && Decode(es) == Quantized(row, palette)
      ensures |entries| <= |es|
    {
      GreedyIsLeast(es);
    }
  }

  lemma First(c: nat)
    ensures ValidRuns([Run(1, c)]) && Tight([Run(1, c)]) && Decode([Run(1, c)]) == [c]
  {
    DecodeOne(Run(1, c));
  }

  lemma NoRuns()
    ensures ValidRuns([]) && Tight([]) && Decode([]) == []
  {
  }

  lemma LastFits(entries: seq<Run>, last: Run)
    requires ValidRuns(entries + [last])
    ensures last.repeats <= MAX_RUN
  {
    assert (entries + [last])[|entries|] == last;
  }

  /** One more pixel of the same colour. */
  lemma Longer(entries: seq<Run>, repeats: nat, c: nat)
    requires ValidRuns(entries + [Run(repeats, c)]) && Tight(entries + [Run(repeats, c)]) && repeats < MAX_RUN
    ensures var all := entries + [Run(repeats + 1, c)];
      ValidRuns(all) && Tight(all) && Decode(all) == Decode(entries + [Run(repeats, c)]) + [c]
  {
    var was, now := entries + [Run(repeats, c)], entries + [Run(repeats + 1, c)];
    forall i | 0 <= i < |now|
      ensures 1 <= now[i].repeats <= MAX_RUN
    {
      assert was[i].repeats >= 1;
    }
    forall i | 0 <= i < |now| - 1
      ensures now[i].color == now[i + 1].color ==> now[i].repeats == MAX_RUN
    {
      assert was[i] == now[i] && was[i + 1].color == now[i + 1].color;
    }
    DecodeAppend(entries, [Run(repeats, c)]);
    DecodeAppend(entries, [Run(repeats + 1, c)]);
    DecodeOne(Run(repeats, c));
    DecodeOne(Run(repeats + 1, c));
  }

  /** A pixel that starts a new run. */
  lemma Another(entries: seq<Run>, last: Run, c: nat)
    requires ValidRuns(entries + [last]) && Tight(entries + [last])
    requires last.color == c ==> last.repeats == MAX_RUN
    ensures var all := entries + [last] + [Run(1, c)];
      ValidRuns(all) && Tight(all) && Decode(all) == Decode(entries + [last]) + [c]
  {
    var was, now := entries + [last], entries + [last] + [Run(1, c)];
    forall i | 0 <= i < |now| - 1
      ensures now[i].color == now[i + 1].color ==> now[i].repeats == MAX_RUN
    {
      if i < |was| - 1 {
        assert was[i] == now[i] && was[i + 1] == now[i + 1];
      }
    }
    DecodeAppend(was, [Run(1, c)]);
    DecodeOne(Run(1, c));
  }
}
