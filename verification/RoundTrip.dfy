/** Printing a line of commands and reading it back: the shell gets the commands, and of each
    the arguments, that were printed.  And where on the line it notes that they begin. */
module RoundTrip {
  import opened Wrappers
  import opened CStrings
  import opened Tokenizer
  import opened CommandLine
  import opened Printing

  /** A command as it is written: its items and how it ends. */
  datatype Written = Written(items: seq<Spaced>, ending: Ending)

  function PrintCommand(c: Written): seq<char> {
    Print(c.items, c.ending)
  }

  /** A line of commands, with semicolons between. */
  function PrintLine(cmds: seq<Written>): seq<char> {
    if cmds == [] then []
    else if |cmds| == 1 then PrintCommand(cmds[0])
    else PrintCommand(cmds[0]) + ([';'] + PrintLine(cmds[1..]))
  }

  /** nsh_parse looks for the end of a command before there are words, and knows only single
      and double quotes. */
  predicate HidesNothing(t: seq<char>) {
    forall k :: 0 <= k < |t| ==> t[k] != '"' && t[k] != '\'' && t[k] != '#' && t[k] != ';' && t[k] != '\n'
  }

  predicate OnePiece(p: Piece) {
    p.Single? || p.Double? || HidesNothing(p.text)
  }

  predicate OnLine(items: seq<Spaced>) {
    forall i :: 0 <= i < |items| ==>
      && '\n' !in items[i].gap
      && (items[i].item.Glued? ==> forall k :: 0 <= k < |items[i].item.pieces| ==> OnePiece(items[i].item.pieces[k]))
  }

  predicate GoodCommand(c: Written) {
    GoodLine(None, c.items, c.ending) && OnLine(c.items)
  }

  /** Only the last command may end in a comment, a newline or an open quote. */
  predicate GoodCommands(cmds: seq<Written>) {
    && cmds != []
    && (forall i :: 0 <= i < |cmds| ==> GoodCommand(cmds[i]))
    && forall i :: 0 <= i < |cmds| - 1 ==> cmds[i].ending.Blank? && '\n' !in cmds[i].ending.gap
  }

  lemma GoodFirst(cmds: seq<Written>)
    requires GoodCommands(cmds)
    ensures cmds != [] && GoodCommand(cmds[0])
    ensures |cmds| > 1 ==> cmds[0].ending.Blank? && '\n' !in cmds[0].ending.gap
    ensures |cmds| > 1 ==> GoodCommands(cmds[1..]) && cmds[1..][|cmds| - 2] == cmds[|cmds| - 1]
  {
    hide GoodCommand;
  }

  lemma PrintFirst(cmds: seq<Written>)
    requires cmds != []
    ensures |cmds| == 1 ==> PrintLine(cmds) == PrintCommand(cmds[0])
    ensures |cmds| > 1 ==> PrintLine(cmds) == PrintCommand(cmds[0]) + ([';'] + PrintLine(cmds[1..]))
  {
    hide PrintCommand;
  }

  // ---------- The search for the end of a command ----------

  /** `t` stands in `s` at `i`. */
  predicate Stands(s: seq<char>, i: nat, t: seq<char>) {
    i + |t| <= |s| && s[i..i + |t|] == t
  }

  lemma StandsSplit(s: seq<char>, i: nat, a: seq<char>, b: seq<char>)
    requires Stands(s, i, a + b)
    ensures Stands(s, i, a) && Stands(s, i + |a|, b)
  {
    var whole := s[i..i + |a| + |b|];
    assert whole[..|a|] == a && whole[|a|..] == b;
    assert s[i..i + |a|] == whole[..|a|];
    assert s[i + |a|..i + |a| + |b|] == whole[|a|..];
  }

  lemma CutPlain(t: seq<char>, s: seq<char>, i: nat, working: nat)
    requires Stands(s, i, t) && HidesNothing(t)
    ensures FindCut(s, working, i) == FindCut(s, working, i + |t|)
  {
    hide FindCut;
    assert forall k :: i <= k < i + |t| ==> s[k] == t[k - i];
    SkipPlain(s, working, i, i + |t|);
  }

  lemma CutGap(gap: seq<char>, s: seq<char>, i: nat, working: nat)
    requires Stands(s, i, gap) && Blanks(gap) && '\n' !in gap
    ensures FindCut(s, working, i) == FindCut(s, working, i + |gap|)
  {
    hide FindCut, Stands;
    CutPlain(gap, s, i, working);
  }

  lemma ClosesAt(q: char, t: seq<char>, s: seq<char>, i: nat)
    requires Stands(s, i, [q] + t + [q]) && q !in t
    ensures i + |t| + 2 <= |s| && s[i] == q && IndexOf(s[i + 1..], q) == Some(|t|)
  {
    var (p, u) := ([q] + t + [q], s[i + 1..]);
    forall k | 0 <= k < |p|
      ensures s[i + k] == p[k]
    {
      assert s[i..i + |p|][k] == p[k];
    }
    forall k | 0 <= k <= |t|
      ensures u[k] == p[k + 1]
    {
      assert u[k] == s[i + (k + 1)];
    }
    assert u[..|t|] == t;
    hide *;
    IndexOfIs(u, q, |t|);
  }

  /** Whatever stands between quotes is passed over. */
  lemma CutQuoted(q: char, t: seq<char>, s: seq<char>, i: nat, working: nat)
    requires Stands(s, i, [q] + t + [q]) && (q == '\'' || q == '"') && q !in t
    ensures FindCut(s, working, i) == FindCut(s, i + |t| + 2, i + |t| + 2)
  {
    hide IndexOf, Stands;
    ClosesAt(q, t, s, i);
  }

  lemma CutPiece(p: Piece, s: seq<char>, i: nat, working: nat) returns (w: nat)
    requires GoodPiece(p) && OnePiece(p) && Stands(s, i, PrintPiece(p)) && working <= i
    ensures w <= i + |PrintPiece(p)| && FindCut(s, working, i) == FindCut(s, w, i + |PrintPiece(p)|)
  {
    hide FindCut;
    w := working;
    match p
    case Single(t) =>
      CutQuoted('\'', t, s, i, working);
      w := i + |t| + 2;
    case Double(t) =>
      CutQuoted('"', t, s, i, working);
      w := i + |t| + 2;
    case Bare(t) => CutPlain(t, s, i, working);
    case Back(t) => CutPlain(PrintPiece(p), s, i, working);
  }

  lemma {:induction false} CutPieces(ps: seq<Piece>, s: seq<char>, i: nat, working: nat) returns (w: nat)
    requires forall k :: 0 <= k < |ps| ==> GoodPiece(ps[k]) && OnePiece(ps[k])
    requires Stands(s, i, PrintPieces(ps)) && working <= i
    ensures w <= i + |PrintPieces(ps)| && FindCut(s, working, i) == FindCut(s, w, i + |PrintPieces(ps)|)
  {
    hide FindCut, Stands, GoodPiece, OnePiece, PrintPiece;
    w := working;
    if ps != [] {
      StandsSplit(s, i, PrintPiece(ps[0]), PrintPieces(ps[1..]));
      w := CutPiece(ps[0], s, i, working);
      w := CutPieces(ps[1..], s, i + |PrintPiece(ps[0])|, w);
    }
  }

  lemma CutItem(x: Spaced, s: seq<char>, i: nat, working: nat) returns (w: nat)
    requires Blanks(x.gap) && GoodItem(x.item) && OnLine([x]) && Stands(s, i, x.gap + PrintItem(x.item)) && working <= i
    ensures var j := i + |x.gap| + |PrintItem(x.item)|;
      w <= j && FindCut(s, working, i) == FindCut(s, w, j)
  {
    hide FindCut, Stands, PrintPieces;
    assert [x][0] == x;
    StandsSplit(s, i, x.gap, PrintItem(x.item));
    CutGap(x.gap, s, i, working);
    w := working;
    match x.item
    case Redirection(_) => CutPlain(PrintItem(x.item), s, i + |x.gap|, working);
    case Glued(ps) => w := CutPieces(ps, s, i + |x.gap|, working);
  }

  /** The items of a command hide every separator that is in them. */
  lemma {:induction false} CutItems(before: Option<Item>, items: seq<Spaced>, e: Ending, s: seq<char>, i: nat,
                                    working: nat)
    returns (j: nat, w: nat)
    requires GoodLine(before, items, e) && OnLine(items) && Stands(s, i, Print(items, e)) && working <= i
    ensures j + |PrintEnding(e)| == i + |Print(items, e)| && Stands(s, j, PrintEnding(e))
    ensures w <= j && FindCut(s, working, i) == FindCut(s, w, j)
    decreases |items|
  {
    hide FindCut, Stands, PrintItem, PrintEnding, Blanks, GoodItem, GoodEnding, OnePiece, Apart;
    j, w := i, working;
    if items != [] {
      var x := items[0];
      StandsSplit(s, i, x.gap + PrintItem(x.item), Print(items[1..], e));
      assert OnLine([x]) && OnLine(items[1..]);
      w := CutItem(x, s, i, working);
      j, w := CutItems(Some(x.item), items[1..], e, s, i + |x.gap| + |PrintItem(x.item)|, w);
    }
  }

  /** The first newline of some blanks. */
  lemma {:induction false} CutBlanks(gap: seq<char>, s: seq<char>, i: nat, working: nat) returns (j: nat)
    requires Blanks(gap) && Stands(s, i, gap)
    requires i + |gap| < |s| ==> s[i + |gap|] == '#'
    ensures i <= j <= |s| && FindCut(s, working, i) == FindCut(s, working, j)
    ensures j == |s| || s[j] == '#' || s[j] == '\n'
    decreases |gap|
  {
    hide FindCut;
    j := i;
    if gap != [] {
      assert s[i] == gap[0];
      if gap[0] != '\n' {
        SkipPlain(s, working, i, i + 1);
        assert s[i + 1..i + |gap|] == gap[1..];
        j := CutBlanks(gap[1..], s, i + 1, working);
      }
    }
  }

  // ---------- Commands ----------

  /** The last command of a line. */
  lemma LastCommand(c: Written, base: nat)
    requires GoodCommand(c) && !c.ending.Open?
    ensures Closed(PrintCommand(c))
    ensures |Commands(PrintCommand(c), base)| == 1 && Commands(PrintCommand(c), base)[0].text == PrintCommand(c)
  {
    hide FindCut, Print, GoodLine, OnLine, Commands, Closed;
    var s := PrintCommand(c);
    assert s[0..|s|] == s;
    var j, w := CutItems(None, c.items, c.ending, s, 0, 0);
    EndingIsGood(None, c.items, c.ending);
    if c.ending.Hash? {
      StandsSplit(s, j, c.ending.gap, ['#'] + c.ending.comment) by {
        assert PrintEnding(c.ending) == c.ending.gap + (['#'] + c.ending.comment);
      }
    }
    j := CutBlanks(c.ending.gap, s, j, w);
    AtLast(s, base, w, j);
  }

  lemma {:induction false} EndingIsGood(before: Option<Item>, items: seq<Spaced>, e: Ending)
    requires GoodLine(before, items, e)
    ensures GoodEnding(e)
    decreases |items|
  {
    hide Blanks, GoodItem, GoodEnding, Apart;
    if items != [] {
      EndingIsGood(Some(items[0].item), items[1..], e);
    }
  }

  /** A command with another one behind it. */
  lemma EarlierCommand(c: Written, rest: seq<char>, base: nat) returns (loffs: nat)
    requires GoodCommand(c) && c.ending.Blank? && '\n' !in c.ending.gap
    ensures var s := PrintCommand(c) + ([';'] + rest);
      && Commands(s, base) == [Command(PrintCommand(c), loffs)] + Commands(rest, base + |PrintCommand(c)| + 1)
      && Closed(s) == Closed(rest)
  {
    hide FindCut, Print, GoodLine, OnLine, Commands, Closed;
    var t := PrintCommand(c);
    var s := t + ([';'] + rest);
    assert s[0..|t|] == t;
    var j, w := CutItems(None, c.items, c.ending, s, 0, 0);
    EndingIsGood(None, c.items, c.ending);
    CutGap(c.ending.gap, s, j, w);
    assert s[|t|] == ';' && s[..|t|] == t && s[|t| + 1..] == rest;
    AtSemicolon(s, base, w, |t|);
    loffs := Loffs(base + w);
  }

  /** Command round trip: the commands of a printed line are the printed commands, in order,
      even when quoted text contains semicolons, hashes or newlines, and the tokens of each
      are the words and redirections that were printed. */
  lemma {:induction false} CommandsOfPrinted(cmds: seq<Written>, base: nat)
    requires GoodCommands(cmds) && !cmds[|cmds| - 1].ending.Open?
    ensures Closed(PrintLine(cmds)) && |Commands(PrintLine(cmds), base)| == |cmds|
    ensures forall i :: 0 <= i < |cmds| ==>
      var text := Commands(PrintLine(cmds), base)[i].text;
      text == PrintCommand(cmds[i]) && Words(text) == Expected(cmds[i].items)
    decreases |cmds|
  {
    hide *;
    GoodFirst(cmds);
    PrintFirst(cmds);
    WordsOfCommand(cmds[0]);
    if |cmds| == 1 {
      LastCommand(cmds[0], base);
    } else {
      var rest := PrintLine(cmds[1..]);
      var _ := EarlierCommand(cmds[0], rest, base);
      var n := base + |PrintCommand(cmds[0])| + 1;
      CommandsOfPrinted(cmds[1..], n);
      var cs := Commands(PrintLine(cmds), base);
      forall i | 0 <= i < |cmds|
        ensures cs[i].text == PrintCommand(cmds[i]) && Words(cs[i].text) == Expected(cmds[i].items)
      {
        if i > 0 {
          assert cs[i] == Commands(rest, n)[i - 1];
        }
      }
    }
  }

  lemma WordsOfCommand(c: Written)
    requires GoodCommand(c)
    ensures Words(PrintCommand(c)) == Expected(c.items)
  {
    hide Words, Print, GoodLine;
    WordsOfPrinted(None, c.items, c.ending);
  }

  /** The command ends in the middle of a word, in single or double quotes that are not
      closed. */
  predicate OpensQuote(e: Ending) {
    && e.Open? && e.quote != '`' && '\n' !in e.gap
    && forall k :: 0 <= k < |e.pieces| ==> OnePiece(e.pieces[k])
  }

  /** A line whose last command ends in an open single or double quote is noticed: the
      commands before that one are read, and it is not. */
  lemma {:induction false} OpenLineNoticed(cmds: seq<Written>, base: nat)
    requires GoodCommands(cmds) && OpensQuote(cmds[|cmds| - 1].ending)
    ensures !Closed(PrintLine(cmds)) && |Commands(PrintLine(cmds), base)| == |cmds| - 1
    ensures forall i :: 0 <= i < |cmds| - 1 ==>
      var text := Commands(PrintLine(cmds), base)[i].text;
      text == PrintCommand(cmds[i]) && Words(text) == Expected(cmds[i].items)
    decreases |cmds|
  {
    hide *;
    GoodFirst(cmds);
    PrintFirst(cmds);
    if |cmds| == 1 {
      LastOpen(cmds[0]);
    } else {
      WordsOfCommand(cmds[0]);
      var (rest, n) := (PrintLine(cmds[1..]), base + |PrintCommand(cmds[0])| + 1);
      var _ := EarlierCommand(cmds[0], rest, base);
      OpenLineNoticed(cmds[1..], n);
      var cs := Commands(PrintLine(cmds), base);
      forall i | 0 <= i < |cmds| - 1
        ensures cs[i].text == PrintCommand(cmds[i]) && Words(cs[i].text) == Expected(cmds[i].items)
      {
        if i > 0 {
          assert cs[i] == Commands(rest, n)[i - 1];
        }
      }
    }
  }

  lemma LastOpen(c: Written)
    requires GoodCommand(c) && OpensQuote(c.ending)
    ensures !Closed(PrintCommand(c)) && forall base :: Commands(PrintCommand(c), base) == []
  {
    hide FindCut, Print, GoodLine, OnLine, OnePiece, Closed, Commands, PrintPieces;
    var (s, e) := (PrintCommand(c), c.ending);
    assert s[0..|s|] == s;
    var j, w := CutItems(None, c.items, e, s, 0, 0);
    EndingIsGood(None, c.items, e);
    j, w := CutOpen(e, s, j, w);
    AtQuote(s, w, j, false, 0);
  }

  /** The search gets to the open quote. */
  lemma CutOpen(e: Ending, s: seq<char>, i: nat, working: nat) returns (j: nat, w: nat)
    requires OpensQuote(e) && Blanks(e.gap) && GoodPieces(e.pieces)
    requires Stands(s, i, PrintEnding(e)) && i + |PrintEnding(e)| == |s| && working <= i
    ensures w <= j < |s| && FindCut(s, working, i) == FindCut(s, w, j)
    ensures s[j] == e.quote && s[j + 1..] == e.text
  {
    hide FindCut, Stands, PrintPieces, GoodPieces, OnePiece, Blanks, PrintEnding;
    var word := PrintPieces(e.pieces) + ([e.quote] + e.text);
    OpenEnding(e);
    StandsSplit(s, i, e.gap, word);
    CutGap(e.gap, s, i, working);
    j, w := CutOpenWord(e.pieces, e.quote, e.text, s, i + |e.gap|, working);
  }

  lemma OpenEnding(e: Ending)
    requires e.Open?
    ensures PrintEnding(e) == e.gap + (PrintPieces(e.pieces) + ([e.quote] + e.text))
  {
    hide PrintPieces;
  }

  lemma CutOpenWord(ps: seq<Piece>, q: char, t: seq<char>, s: seq<char>, i: nat, working: nat)
    returns (j: nat, w: nat)
    requires GoodPieces(ps) && (forall k :: 0 <= k < |ps| ==> OnePiece(ps[k])) && working <= i
    requires Stands(s, i, PrintPieces(ps) + ([q] + t)) && i + |PrintPieces(ps)| + 1 + |t| == |s|
    ensures w <= j < |s| && FindCut(s, working, i) == FindCut(s, w, j)
    ensures s[j] == q && s[j + 1..] == t
  {
    hide FindCut, Stands, PrintPieces, OnePiece, GoodPiece;
    StandsSplit(s, i, PrintPieces(ps), [q] + t);
    w := CutPieces(ps, s, i, working);
    j := i + |PrintPieces(ps)|;
    StandsLast(s, j, q, t);
  }

  lemma StandsLast(s: seq<char>, j: nat, q: char, t: seq<char>)
    requires Stands(s, j, [q] + t) && j + 1 + |t| == |s|
    ensures s[j] == q && s[j + 1..] == t
  {
    assert s[j..] == [q] + t;
    assert s[j + 1..] == s[j..][1..];
  }

  // ---------- What the search does not know ----------

  /** After a newline or a `#` outside quotes no further command is looked for, whatever follows:
      all of the line from there on goes with the command before it. */
  lemma LineEnds(t: seq<char>, c: char, b: seq<char>, base: nat)
    requires HidesNothing(t) && (c == '\n' || c == '#')
    ensures Commands(t + [c] + b, base) == [Command(t + [c] + b, Loffs(base))] && Closed(t + [c] + b)
  {
    hide FindCut, Commands, Closed;
    var s := t + [c] + b;
    assert s[0..|t|] == t;
    CutPlain(t, s, 0, 0);
    AtLast(s, base, 0, |t|);
  }

  /** The search takes any `#` for the start of a comment, the tokeniser only one that begins a
      word: in `x#;y` the semicolon ends no command, and all of it is one word. */
  lemma HashInWord(a: seq<char>, b: seq<char>, base: nat)
    requires AllBare(a) && a != [] && HidesNothing(a) && a[0] != '>' && AllBare(b)
    ensures Commands(a + ['#'] + b, base) == [Command(a + ['#'] + b, Loffs(base))]
    ensures Words(a + ['#'] + b) == [Word(a + ['#'] + b, false)]
  {
    hide FindCut, Words, Commands, Closed;
    var s := a + ['#'] + b;
    LineEnds(a, '#', b, base);
    var items := [Spaced([], Glued([Bare(s)]))];
    assert GoodLine(None, items, Blank([]));
    assert PrintPieces([Bare(s)]) == s + [] == s && Kept([Bare(s)]) == s + [] == s;
    assert Print(items, Blank([])) == [] + s + [] == s;
    WordsOfPrinted(None, items, Blank([]));
    assert Expected(items) == [Word(s, false)];
  }

  /** The search does not know back-quotes, so a semicolon between them ends the command in an
      open quote, which makes it no command at all. */
  lemma BackQuotedSemicolon(a: seq<char>, b: seq<char>, base: nat)
    requires HidesNothing(a) && '`' !in a
    ensures var s := ['`'] + a + ([';'] + b);
      && Commands(s, base) == [Command(['`'] + a, Loffs(base))] + Commands(b, base + |a| + 2)
      && Next(['`'] + a).0 == Bad && Words(['`'] + a) == []
  {
    hide *;
    var t := ['`'] + a;
    BackQuoteOpens(a);
    CutAtSemicolon(t, b, base);
  }

  lemma CutAtSemicolon(t: seq<char>, b: seq<char>, base: nat)
    requires HidesNothing(t)
    ensures Commands(t + ([';'] + b), base) == [Command(t, Loffs(base))] + Commands(b, base + |t| + 1)
  {
    hide *;
    AroundSemicolon(t, b);
    CutPlain(t, t + ([';'] + b), 0, 0);
    AtSemicolon(t + ([';'] + b), base, 0, |t|);
  }

  lemma AroundSemicolon(t: seq<char>, b: seq<char>)
    ensures var s := t + ([';'] + b);
      Stands(s, 0, t) && s[..|t|] == t && s[|t|] == ';' && s[|t| + 1..] == b
  {
    var s := t + ([';'] + b);
    assert s[0..|t|] == s[..|t|] == t;
  }

  lemma BackQuoteOpens(a: seq<char>)
    requires HidesNothing(a) && '`' !in a
    ensures HidesNothing(['`'] + a) && Next(['`'] + a).0 == Bad && Words(['`'] + a) == []
  {
    hide Words, Next;
    var e := Open([], [], '`', a);
    assert PrintEnding(e) == [] + [] + ['`'] + a == ['`'] + a;
    NextEnding(e);
    WordsStep(['`'] + a);
  }

  // ---------- In the buffer ----------

  /** How many commands of a printed line can be run: all but one with an open quote. */
  function Runnable(cmds: seq<Written>): (n: nat)
    requires cmds != []
  {
    if cmds[|cmds| - 1].ending.Open? then |cmds| - 1 else |cmds|
  }

  /** End to end, on a printed line, whatever its commands do: nsh_parse runs the commands that
      were printed, in this order and with exactly these arguments, up to the first that fails
      or jumps, but not a last one in which a quote is left open.  It succeeds exactly when the
      last command that it ran did, and on a line with an open quote only if that one jumped. */
  method RunPrinted(cmds: seq<Written>, effect: nat -> Effect)
    returns (buf: array<char>, ok: bool, argvs: seq<seq<Arg>>)
    requires cmds != [] && GoodCommands(cmds) && NUL !in PrintLine(cmds)
    requires var e := cmds[|cmds| - 1].ending; e.Open? ==> OpensQuote(e)
    ensures |argvs| <= Runnable(cmds)
    ensures forall i :: 0 <= i < |argvs| ==>
      InBuffer(buf[..], argvs[i]) && Tokens(buf[..], argvs[i]) == Expected(cmds[i].items)
    ensures forall i :: 0 <= i < |argvs| - 1 ==> effect(i).ok && !effect(i).jump
    ensures |argvs| < Runnable(cmds) ==> argvs != [] && (!effect(|argvs| - 1).ok || effect(|argvs| - 1).jump)
    ensures ok <==> argvs != [] && effect(|argvs| - 1).ok
                    && (!cmds[|cmds| - 1].ending.Open? || effect(|argvs| - 1).jump)
  {
    hide *;
    var line := PrintLine(cmds) + [NUL];
    buf := new char[|line|](i requires 0 <= i < |line| => line[i]);
    assert buf[..] == line;
    LineInBuffer(buf[..], PrintLine(cmds));
    LineRead(cmds);
    var loffs;
    ok, argvs, loffs := NshParse(buf, 0, effect);
    RunInOrder(buf[..], cmds, effect, ok, argvs, loffs);
  }

  /** The commands that can be run, and whether the line is closed. */
  ghost predicate ReadAs(cmds: seq<Written>)
    requires cmds != []
  {
    var cs := Commands(PrintLine(cmds), 0);
    && |cs| == Runnable(cmds) && Closed(PrintLine(cmds)) == !cmds[|cmds| - 1].ending.Open?
    && forall i :: 0 <= i < |cs| ==> Words(cs[i].text) == Expected(cmds[i].items)
  }

  lemma LineRead(cmds: seq<Written>)
    requires cmds != [] && GoodCommands(cmds)
    requires var e := cmds[|cmds| - 1].ending; e.Open? ==> OpensQuote(e)
    ensures ReadAs(cmds)
  {
    hide Commands, Closed, PrintLine, GoodCommands, OpensQuote, Words, Expected;
    if cmds[|cmds| - 1].ending.Open? {
      OpenLineNoticed(cmds, 0);
    } else {
      CommandsOfPrinted(cmds, 0);
    }
  }

  lemma LineInBuffer(buf: seq<char>, s: seq<char>)
    requires buf == s + [NUL] && NUL !in s
    ensures Terminated(buf, 0) && Str(buf, 0) == s
  {
    assert Ends(buf, 0, |s|);
    StrIs(buf, 0, |s|);
  }

  lemma RunInOrder(buf: seq<char>, cmds: seq<Written>, effect: nat -> Effect, ok: bool, argvs: seq<seq<Arg>>,
                   loffs: seq<nat>)
    requires cmds != [] && Outcome(buf, 0, PrintLine(cmds), effect, ok, argvs, loffs) && ReadAs(cmds)
    ensures |argvs| <= Runnable(cmds)
    ensures forall i :: 0 <= i < |argvs| ==>
      InBuffer(buf, argvs[i]) && Tokens(buf, argvs[i]) == Expected(cmds[i].items)
    ensures forall i :: 0 <= i < |argvs| - 1 ==> effect(i).ok && !effect(i).jump
    ensures |argvs| < Runnable(cmds) ==> argvs != [] && (!effect(|argvs| - 1).ok || effect(|argvs| - 1).jump)
    ensures ok <==> argvs != [] && effect(|argvs| - 1).ok
                    && (!cmds[|cmds| - 1].ending.Open? || effect(|argvs| - 1).jump)
  {
    hide Commands, Closed, PrintLine, PrintCommand, Tokens, Words, Settled, Expected;
  }

  // ---------- The recorded offset ----------

  /** Where each command of a line begins and ends, in a line `base` bytes into the
      buffer: from after the last semicolon to the next semicolon, comment or line end. */
  function Spans(s: seq<char>, base: nat): seq<(nat, nat)>
    decreases |s|
  {
    match FindCut(s, 0, 0)
    case Unclosed => []
    case Cut(at, _, more) =>
      if more then [(base, base + at)] + Spans(s[at + 1..], base + at + 1) else [(base, base + at)]
  }

  predicate QuoteFree(s: seq<char>) {
    forall k :: 0 <= k < |s| ==> s[k] != '"' && s[k] != '\''
  }

  /** How FindCut goes on. */
  lemma CutStep(s: seq<char>, working: nat, p: nat)
    requires working <= p < |s| && s[p] != '#' && s[p] != '\n' && s[p] != ';' && FindCut(s, working, p).Cut?
    ensures s[p] != '"' && s[p] != '\'' ==> FindCut(s, working, p) == FindCut(s, working, p + 1)
    ensures s[p] == '"' || s[p] == '\'' ==>
      exists q: nat :: p < q <= |s| && FindCut(s, working, p) == FindCut(s, q, q)
  {
    if s[p] == '"' || s[p] == '\'' {
      var q := p + 1 + IndexOf(s[p + 1..], s[p]).value + 1;
      assert FindCut(s, working, p) == FindCut(s, q, q);
    }
  }

  /** The search for the end of a command is restarted exactly when a quote stands before
      that end. */
  lemma {:induction false} RestartedAtQuotes(s: seq<char>, working: nat, p: nat)
    requires working <= p <= |s| && FindCut(s, working, p).Cut?
    ensures var c := FindCut(s, working, p);
      working <= c.working <= c.at <= |s| && p <= c.at && (c.working == working <==> QuoteFree(s[p..c.at]))
    decreases |s| - p
  {
    hide FindCut, QuoteFree;
    if p == |s| || s[p] == '#' || s[p] == '\n' || s[p] == ';' {
      CutHere(s, working, p);
      QuoteFreeStep(s, p, p);
    } else {
      CutStep(s, working, p);
      if s[p] == '"' || s[p] == '\'' {
        var q: nat :| p < q <= |s| && FindCut(s, working, p) == FindCut(s, q, q);
        RestartedAtQuotes(s, q, q);
      } else {
        RestartedAtQuotes(s, working, p + 1);
      }
      QuoteFreeStep(s, p, FindCut(s, working, p).at);
    }
  }

  lemma CutHere(s: seq<char>, working: nat, p: nat)
    requires p <= |s| && (p == |s| || s[p] == '#' || s[p] == '\n' || s[p] == ';')
    ensures FindCut(s, working, p).Cut? && FindCut(s, working, p).at == p && FindCut(s, working, p).working == working
  {
  }

  lemma QuoteFreeStep(s: seq<char>, p: nat, q: nat)
    requires p <= q <= |s|
    ensures QuoteFree(s[p..q]) <==> p == q || (s[p] != '"' && s[p] != '\'' && QuoteFree(s[p + 1..q]))
  {
    if p < q {
      assert s[p..q] == [s[p]] + s[p + 1..q];
    }
  }

  /** The command `c`, which stands at `span`, begins with its text there, and what is
      recorded for it is where it begins exactly when no quote stands before its end. */
  predicate Recorded(s: seq<char>, base: nat, span: (nat, nat), c: Command) {
    && base <= span.0 <= span.1 <= base + |s|
    && s[span.0 - base..span.1 - base] <= c.text
    && (c.loffs == span.0 <==> QuoteFree(s[span.0 - base..span.1 - base]))
  }

  lemma RecordedLater(s: seq<char>, base: nat, n: nat, span: (nat, nat), c: Command)
    requires n <= |s| && Recorded(s[n..], base + n, span, c)
    ensures Recorded(s, base, span, c)
  {
    assert s[n..][span.0 - base - n..span.1 - base - n] == s[span.0 - base..span.1 - base];
  }

  /** The first command of a line, and the rest. */
  lemma {:induction false} FirstCommand(s: seq<char>, base: nat)
    ensures match FindCut(s, 0, 0)
      case Unclosed => Commands(s, base) == []
      case Cut(at, working, more) =>
        if more then
          && at < |s| && s[at] == ';'
          && Commands(s, base) == [Command(s[..at], Loffs(base + working))] + Commands(s[at + 1..], base + at + 1)
        else at <= |s| && Commands(s, base) == [Command(s, Loffs(base + working))]
  {
    hide FindCut, Loffs;
  }

  lemma {:induction false} FirstSpan(s: seq<char>, base: nat)
    ensures match FindCut(s, 0, 0)
      case Unclosed => Spans(s, base) == []
      case Cut(at, _, more) =>
        if more then
          at < |s| && s[at] == ';' && Spans(s, base) == [(base, base + at)] + Spans(s[at + 1..], base + at + 1)
        else at <= |s| && Spans(s, base) == [(base, base + at)]
  {
    hide FindCut;
  }

  lemma SmallOffset(offset: nat)
    requires offset < 0x10000
    ensures Loffs(offset) == offset
  {
  }

  lemma RecordedHere(s: seq<char>, base: nat, at: nat, c: Command)
    requires at <= |s| && s[..at] <= c.text && (c.loffs == base <==> QuoteFree(s[..at]))
    ensures Recorded(s, base, (base, base + at), c)
  {
    hide QuoteFree;
    assert base - base == 0 && base + at - base == at && s[0..at] == s[..at];
  }

  lemma FirstRecorded(s: seq<char>, base: nat)
    requires base + |s| < 0x10000 && FindCut(s, 0, 0).Cut?
    ensures Commands(s, base) != [] && Spans(s, base) != []
    ensures Recorded(s, base, Spans(s, base)[0], Commands(s, base)[0])
  {
    hide QuoteFree, FindCut, Commands, Spans, Loffs, Recorded;
    FirstCommand(s, base);
    FirstSpan(s, base);
    RestartedAtQuotes(s, 0, 0);
    var at := FindCut(s, 0, 0).at;
    assert s[0..at] == s[..at];
    SmallOffset(base + FindCut(s, 0, 0).working);
    RecordedHere(s, base, at, Commands(s, base)[0]);
  }

  /** The commands of a line follow one another: the first begins the line, and each later
      one begins right after the semicolon that ends the one before. */
  lemma {:induction false} SpansFollow(s: seq<char>, base: nat, i: nat)
    requires i < |Spans(s, base)|
    ensures i == 0 ==> Spans(s, base)[i].0 == base
    ensures i > 0 ==> Spans(s, base)[i].0 == Spans(s, base)[i - 1].1 + 1
    ensures i > 0 ==> base < Spans(s, base)[i].0 <= base + |s| && s[Spans(s, base)[i].0 - base - 1] == ';'
    decreases |s|
  {
    hide Spans, FindCut;
    FirstSpan(s, base);
    if i > 0 {
      var n := FindCut(s, 0, 0).at + 1;
      var rest, span := s[n..], Spans(s, base)[i];
      SpansFollow(rest, base + n, i - 1);
      assert span == Spans(rest, base + n)[i - 1];
      if i > 1 {
        assert rest[span.0 - base - n - 1] == s[span.0 - base - 1];
      }
    }
  }

  /** np_loffs is taken from where the search was last restarted.  What is recorded for a
      command is where it begins exactly when no quote stands before its end. */
  lemma {:induction false} OffsetIsStart(s: seq<char>, base: nat, i: nat)
    requires base + |s| < 0x10000 && i < |Commands(s, base)|
    ensures i < |Spans(s, base)| && Recorded(s, base, Spans(s, base)[i], Commands(s, base)[i])
    decreases |s|
  {
    hide Spans, FindCut, Commands, Recorded;
    FirstCommand(s, base);
    FirstSpan(s, base);
    if i == 0 {
      FirstRecorded(s, base);
    } else {
      var n := FindCut(s, 0, 0).at + 1;
      OffsetIsStart(s[n..], base + n, i - 1);
      RecordedLater(s, base, n, Spans(s, base)[i], Commands(s, base)[i]);
    }
  }

  /** The recorded offset has sixteen bits: it is short of where the search was restarted by a
      multiple of 65536. */
  lemma OffsetWraps(offset: nat)
    ensures Loffs(offset) < 65536
    ensures exists q: nat :: offset == q * 65536 + Loffs(offset)
  {
    assert offset == offset / 0x10000 * 65536 + Loffs(offset);
  }

  /** A loop whose condition has a quoted word: 9 is recorded for a command that begins
      at 0. */
  lemma QuotedCondition()
    ensures Commands("while 'a'", 0) == [Command("while 'a'", 9)] && Spans("while 'a'", 0)[0].0 == 0
  {
    var s := "while 'a'";
    SkipPlain(s, 0, 0, 6);
    IndexOfIs(s[7..], '\'', 1);
    assert FindCut(s, 0, 6) == FindCut(s, 9, 9);
    CutHere(s, 9, 9);
    hide FindCut;
    FirstCommand(s, 0);
    FirstSpan(s, 0);
  }
}
